/**
 Processing a webhook event: one run for each active pipeline of its connector, then the event's own status.
 A `throwAt` is the number of the awaited call, counted from 0, that throws; one past the last means none.
 */
module Webhooks {
  import opened Common
  import opened Json
  import opened Transformation
  import opened SyncRuns

  datatype EventStatus = Received | Processed | EventFailed | Ignored

  datatype EventRow = EventRow(status: EventStatus, processedAt: Option<int>, errorMessage: Option<string>)

  /** What holds of every event the service ever stores. */
  predicate EventOk(e: EventRow) {
    (e.status == Received <==> e.processedAt.None?) && (e.status == EventFailed <==> e.errorMessage.Some?)
  }

  datatype WebhookRun =
    WebhookRun(pipeline: string, status: RunStatus, recordsReceived: nat, recordsProcessed: nat, recordsFailed: nat)

  datatype SyncedRow = SyncedRow(pipeline: string, run: nat, externalId: string, raw: map<string, Value>,
                                 normalized: map<string, Value>)

  datatype PipelineRow = PipelineRow(id: string, mapping: map<string, Value>)

  /** The payload as every pipeline gets it. */
  datatype Record = Record(externalId: string, payload: map<string, Value>)

  // ----- one pipeline -----

  /** What a pipeline makes of the payload: nothing if its mapping or the record is not valid. */
  datatype Outcome = Rejected | Accepted(normalized: map<string, Value>)

  function OutcomeOf(host: Host, pipeline: PipelineRow, payload: map<string, Value>, generated: string -> string)
    : Outcome
  {
    match CompiledMapping(host, pipeline.mapping)
    case Err(_) => Rejected
    case Ok(fields) =>
      match TransformRecord(host, payload, fields, generated)
      case Ok(t) => if t.errors == [] then Accepted(t.normalized) else Rejected
      case Err(_) => Rejected
  }

  function EndedRun(id: string, outcome: Outcome): WebhookRun {
    if outcome.Rejected? then WebhookRun(id, RunFailed, 1, 0, 1) else WebhookRun(id, Success, 1, 1, 0)
  }

  /** Call 0 creates the run and 1 audits it. A rejected record then updates the run (2), the pipeline (3) and
      audits twice; an accepted one is stored (2) before the run (3), the pipeline (4) and three audits. */
  function PassCalls(outcome: Outcome): nat {
    if outcome.Rejected? then 6 else 8
  }

  function NewRuns(id: string, outcome: Outcome, throwAt: nat): seq<WebhookRun> {
    if throwAt == 0 then []
    else if throwAt <= (if outcome.Rejected? then 2 else 3) then [WebhookRun(id, Running, 0, 0, 0)]
    else [EndedRun(id, outcome)]
  }

  function NewRows(id: string, outcome: Outcome, throwAt: nat, run: nat, record: Record): seq<SyncedRow> {
    if outcome.Accepted? && throwAt >= 3
    then [SyncedRow(id, run, record.externalId, record.payload, outcome.normalized)] else []
  }

  // ----- all pipelines -----

  datatype Pass = Pass(runs: seq<WebhookRun>, rows: seq<SyncedRow>, processed: nat, failed: nat, threw: bool)

  function PassAfter(p: Pass, id: string, outcome: Outcome, throwAt: nat, record: Record): Pass {
    var threw := throwAt < PassCalls(outcome);
    Pass(p.runs + NewRuns(id, outcome, throwAt),
         p.rows + NewRows(id, outcome, throwAt, |p.runs|, record),
         p.processed + (if !threw && outcome.Accepted? then 1 else 0),
         p.failed + (if !threw && outcome.Rejected? then 1 else 0), threw)
  }

  function Before(runs: seq<WebhookRun>, rows: seq<SyncedRow>): Pass {
    Pass(runs, rows, 0, 0, false)
  }

  /** The runs and records there are after the first n pipelines; a throw ends the pass. */
  function PassOf(start: Pass, ids: seq<string>, outcomes: seq<Outcome>, throwAts: nat -> nat, record: Record,
                  n: nat): Pass
    requires n <= |ids| == |outcomes|
  {
    if n == 0 then start
    else
      var p := PassOf(start, ids, outcomes, throwAts, record, n - 1);
      if p.threw then p else PassAfter(p, ids[n - 1], outcomes[n - 1], throwAts(n - 1), record)
  }

  function IdsOf(pipelines: seq<PipelineRow>): (r: seq<string>)
    ensures |r| == |pipelines|
  {
    seq(|pipelines|, i requires 0 <= i < |pipelines| => pipelines[i].id)
  }

  function OutcomesOf(host: Host, pipelines: seq<PipelineRow>, payload: map<string, Value>,
                      generated: nat -> string -> string): (r: seq<Outcome>)
    ensures |r| == |pipelines|
  {
    seq(|pipelines|, i requires 0 <= i < |pipelines| => OutcomeOf(host, pipelines[i], payload, generated(i)))
  }

  lemma OutcomeAt(host: Host, pipelines: seq<PipelineRow>, payload: map<string, Value>,
                  generated: nat -> string -> string, i: nat)
    requires i < |pipelines|
    ensures OutcomesOf(host, pipelines, payload, generated)[i] == OutcomeOf(host, pipelines[i], payload, generated(i))
    ensures IdsOf(pipelines)[i] == pipelines[i].id
  {
  }

  datatype StoreError = StoreUnavailable

  datatype Summary = Summary(status: EventStatus, pipelineIds: seq<string>, recordsProcessed: nat, recordsFailed: nat)

  /** Which call of `processWebhookEventNow` throws outside the pipelines. */
  datatype NowFault = NoNowFault | LookupThrows | EventUpdateThrows | EventAuditThrows

  /** What processing meets: the connector, its active pipelines, and the calls that throw. */
  datatype Meets = Meets(connectorFound: bool, pipelines: seq<PipelineRow>, generated: nat -> string -> string,
                         throwAts: nat -> nat, fault: NowFault)

  function MetPass(host: Host, start: Pass, record: Record, meets: Meets): Pass {
    if !meets.connectorFound || meets.fault == LookupThrows then start
    else PassOf(start, IdsOf(meets.pipelines), OutcomesOf(host, meets.pipelines, record.payload, meets.generated),
                meets.throwAts, record, |meets.pipelines|)
  }

  const CONNECTOR_MISSING := "Connector not found for webhook event"

  /** The event after `processWebhookEventNow`, unless it throws before the event is updated. */
  function FinalEvent(meets: Meets, now: int): EventRow {
    if !meets.connectorFound then EventRow(EventFailed, Some(now), Some(CONNECTOR_MISSING))
    else EventRow(if meets.pipelines == [] then Ignored else Processed, Some(now), None)
  }

  function Updates(meets: Meets, pass: Pass): bool {
    meets.fault != LookupThrows && !pass.threw && meets.fault != EventUpdateThrows
  }

  function NowResult(meets: Meets, pass: Pass): Result<Summary, StoreError> {
    if !Updates(meets, pass) || meets.fault == EventAuditThrows then Err(StoreUnavailable)
    else if !meets.connectorFound then Ok(Summary(EventFailed, [], 0, 0))
    else if meets.pipelines == [] then Ok(Summary(Ignored, [], 0, 0))
    else Ok(Summary(Processed, IdsOf(meets.pipelines), pass.processed, pass.failed))
  }

  const WEBHOOK_CALLS := 8

  predicate DeliveryThrows(meets: Meets, pass: Pass, throwAt: nat) {
    throwAt < WEBHOOK_CALLS || NowResult(meets, pass).Err?
  }

  /** The event after a delivery that reaches its try block. */
  function DeliveredEvent(meets: Meets, pass: Pass, event: EventRow, now: int, throwAt: nat, message: string,
                          catchThrowAt: nat): EventRow {
    if DeliveryThrows(meets, pass, throwAt) && catchThrowAt > 0 then EventRow(EventFailed, Some(now), Some(message))
    else if throwAt > 5 && Updates(meets, pass) then FinalEvent(meets, now)
    else event
  }

  /** The calls of `queueOrProcessEvent`: 0 receives the event again. With an asynchronous queue 1 reads it, 2
      creates the job, 3 enqueues it, and 4 and 5 audit; otherwise 1 reads the event after its processing. */
  const QUEUE_CALLS_ASYNC := 6

  predicate RestartThrows(async: bool, meets: Meets, pass: Pass, throwAt: nat) {
    throwAt == 0 || (async && throwAt < QUEUE_CALLS_ASYNC) ||
    (!async && (throwAt == 1 || NowResult(meets, pass).Err?))
  }

  function RestartedEvent(async: bool, meets: Meets, pass: Pass, event: EventRow, now: int, throwAt: nat): EventRow {
    if throwAt == 0 then event
    else if !async && Updates(meets, pass) then FinalEvent(meets, now)
    else EventRow(Received, None, None)
  }

  predicate Final(event: EventRow) {
    event.status == Processed || event.status == Ignored
  }

  // ----- the service -----

  datatype Refusal = NotFailed | AlreadyFinal | Broken(error: StoreError)

  class WebhooksService {
    var event: EventRow
    var runs: seq<WebhookRun>
    var rows: seq<SyncedRow>
    var job: Option<JobStatus>
    const async: bool
    /** Every state of the event so far. */
    ghost var seen: seq<EventRow>

    /** The event as `receiveEvent` inserts it. */
    constructor (async: bool)
      ensures Valid() && this.async == async && runs == [] && rows == [] && job == None
      ensures event == EventRow(Received, None, None) && seen == [event]
    {
      this.async := async;
      event := EventRow(Received, None, None);
      runs, rows, job := [], [], None;
      seen := [EventRow(Received, None, None)];
    }

    ghost predicate Valid()
      reads this
    {
      && seen != [] && seen[|seen| - 1] == event
      && forall i :: 0 <= i < |seen| ==> EventOk(seen[i])
    }

    method WriteEvent(e: EventRow)
      requires Valid() && EventOk(e)
      modifies this`event, this`seen
      ensures Valid() && event == e && seen == old(seen) + [e]
    {
      event := e;
      seen := seen + [e];
    }

    /** `processWebhookForPipeline`, from the call 2 of the pass on; the run is the last one. */
    method ProcessWebhookForPipeline(host: Host, pipeline: PipelineRow, record: Record, generated: string -> string,
                                     throwAt: nat)
      returns (threw: bool, processed: nat, failed: nat)
      requires throwAt >= 2 && runs != [] && runs[|runs| - 1] == WebhookRun(pipeline.id, Running, 0, 0, 0)
      modifies this`runs, this`rows
      ensures var outcome := OutcomeOf(host, pipeline, record.payload, generated);
              && runs == old(runs)[..|old(runs)| - 1] + NewRuns(pipeline.id, outcome, throwAt)
              && rows == old(rows) + NewRows(pipeline.id, outcome, throwAt, |old(runs)| - 1, record)
              && threw == (throwAt < PassCalls(outcome))
              && processed == (if !threw && outcome.Accepted? then 1 else 0)
              && failed == (if !threw && outcome.Rejected? then 1 else 0)
    {
      var last := |runs| - 1;
      var compiled := CompileMapping(host, pipeline.mapping);
      var outcome := OutcomeOf(host, pipeline, record.payload, generated);
      processed, failed := 0, 0;
      if compiled.Err? || outcome.Rejected? {
        if throwAt == 2 {
          return true, 0, 0;
        }
        runs := runs[last := WebhookRun(pipeline.id, RunFailed, 1, 0, 1)];
        threw := throwAt < 6;
        failed := if threw then 0 else 1;
        return;
      }
      if throwAt == 2 {
        return true, 0, 0;
      }
      rows := rows + [SyncedRow(pipeline.id, last, record.externalId, record.payload, outcome.normalized)];
      if throwAt == 3 {
        return true, 0, 0;
      }
      runs := runs[last := WebhookRun(pipeline.id, Success, 1, 1, 0)];
      threw := throwAt < 8;
      processed := if threw then 0 else 1;
    }

    /** The body of the loop over the pipelines. */
    method RunPipeline(host: Host, pipeline: PipelineRow, record: Record, generated: string -> string, throwAt: nat,
                       ghost outcome: Outcome)
      returns (threw: bool, processed: nat, failed: nat)
      requires outcome == OutcomeOf(host, pipeline, record.payload, generated)
      modifies this`runs, this`rows
      ensures runs == old(runs) + NewRuns(pipeline.id, outcome, throwAt)
      ensures rows == old(rows) + NewRows(pipeline.id, outcome, throwAt, |old(runs)|, record)
      ensures threw == (throwAt < PassCalls(outcome))
      ensures processed == (if !threw && outcome.Accepted? then 1 else 0)
      ensures failed == (if !threw && outcome.Rejected? then 1 else 0)
    {
      if throwAt == 0 {
        return true, 0, 0;
      }
      runs := runs + [WebhookRun(pipeline.id, Running, 0, 0, 0)];
      assert runs[..|runs| - 1] == old(runs);
      if throwAt == 1 {
        return true, 0, 0;
      }
      threw, processed, failed := ProcessWebhookForPipeline(host, pipeline, record, generated, throwAt);
    }

    function Here(): Pass
      reads this`runs, this`rows
    {
      Before(runs, rows)
    }

    ghost predicate HasPassed(p: Pass, processed: nat, failed: nat)
      reads this`runs, this`rows
    {
      runs == p.runs && rows == p.rows && processed == p.processed && failed == p.failed
    }

    method Accumulate(host: Host, pipeline: PipelineRow, record: Record, generated: string -> string, throwAt: nat,
                      processed: nat, failed: nat, ghost p: Pass, ghost outcome: Outcome)
      returns (threw: bool, processedNow: nat, failedNow: nat)
      requires outcome == OutcomeOf(host, pipeline, record.payload, generated)
      requires HasPassed(p, processed, failed)
      modifies this`runs, this`rows
      ensures var after := PassAfter(p, pipeline.id, outcome, throwAt, record);
              HasPassed(after, processedNow, failedNow) && threw == after.threw
    {
      var more, less;
      threw, more, less := RunPipeline(host, pipeline, record, generated, throwAt, outcome);
      processedNow, failedNow := processed + more, failed + less;
    }

    method ProcessPipelines(host: Host, pipelines: seq<PipelineRow>, record: Record, generated: nat -> string -> string,
                            throwAts: nat -> nat, ghost outcomes: seq<Outcome>)
      returns (threw: bool, processed: nat, failed: nat)
      requires outcomes == OutcomesOf(host, pipelines, record.payload, generated)
      modifies this`runs, this`rows
      ensures var p := PassOf(old(Here()), IdsOf(pipelines), outcomes, throwAts, record, |pipelines|);
              HasPassed(p, processed, failed) && threw == p.threw
    {
      ghost var start, ids := Here(), IdsOf(pipelines);
      var i := 0;
      threw, processed, failed := false, 0, 0;
      while i < |pipelines| && !threw
        invariant i <= |pipelines|
        invariant HasPassed(PassOf(start, ids, outcomes, throwAts, record, i), processed, failed)
        invariant threw == PassOf(start, ids, outcomes, throwAts, record, i).threw
      {
        OutcomeAt(host, pipelines, record.payload, generated, i);
        threw, processed, failed :=
          Accumulate(host, pipelines[i], record, generated(i), throwAts(i), processed, failed,
                     PassOf(start, ids, outcomes, throwAts, record, i), outcomes[i]);
        i := i + 1;
      }
      if threw {
        ThrownStays(start, ids, outcomes, throwAts, record, i, |pipelines|);
      }
    }

    method RunAllPipelines(host: Host, record: Record, meets: Meets) returns (threw: bool, processed: nat, failed: nat)
      requires meets.fault != LookupThrows
      modifies this`runs, this`rows
      ensures var p := MetPass(host, old(Here()), record, meets);
              HasPassed(p, processed, failed) && threw == p.threw
    {
      threw, processed, failed := false, 0, 0;
      if meets.connectorFound && meets.pipelines != [] {
        threw, processed, failed :=
          ProcessPipelines(host, meets.pipelines, record, meets.generated, meets.throwAts,
                           OutcomesOf(host, meets.pipelines, record.payload, meets.generated));
      }
    }

    /** The event moves only after every pipeline has had its run. */
    method ProcessWebhookEventNow(host: Host, record: Record, meets: Meets, now: int)
      returns (r: Result<Summary, StoreError>)
      requires Valid()
      modifies this
      ensures Valid() && job == old(job)
      ensures var pass := MetPass(host, old(Here()), record, meets);
              && runs == pass.runs && rows == pass.rows
              && r == NowResult(meets, pass)
              && event == (if Updates(meets, pass) then FinalEvent(meets, now) else old(event))
    {
      if meets.fault == LookupThrows {
        return Err(StoreUnavailable);
      }
      var threw, processed, failed := RunAllPipelines(host, record, meets);
      if threw || meets.fault == EventUpdateThrows {
        return Err(StoreUnavailable);
      }
      WriteEvent(FinalEvent(meets, now));
      if meets.fault == EventAuditThrows {
        return Err(StoreUnavailable);
      }
      if !meets.connectorFound || meets.pipelines == [] {
        return Ok(Summary(event.status, [], 0, 0));
      }
      return Ok(Summary(Processed, IdsOf(meets.pipelines), processed, failed));
    }

    /** `processQueuedWebhookEvent`. Calls 0 to 4 come before the try block, where 2 marks the job as being
        processed; 5 is the processing, 6 completes the job and 7 audits. In the catch block 0 is the event,
        1 the job, and 2 and 3 are audits. */
    method ProcessQueuedWebhookEvent(host: Host, record: Record, meets: Meets, now: int, throwAt: nat, message: string,
                                     catchThrowAt: nat)
      returns (threw: bool)
      requires Valid()
      modifies this
      ensures Valid()
      ensures throwAt < 5 ==> threw && event == old(event) && runs == old(runs) && rows == old(rows)
                              && job == if throwAt <= 2 then old(job) else Some(Processing)
      ensures throwAt >= 5 ==>
                var pass := MetPass(host, old(Here()), record, meets);
                var ran := throwAt > 5;
                && threw == DeliveryThrows(meets, pass, throwAt)
                && runs == (if ran then pass.runs else old(runs))
                && rows == (if ran then pass.rows else old(rows))
                && event == DeliveredEvent(meets, pass, old(event), now, throwAt, message, catchThrowAt)
                && (!threw ==> job == Some(Completed))
                && (threw && catchThrowAt > 1 ==> job == Some(JobFailed))
                && (threw && catchThrowAt <= 1 ==> job == Some(if throwAt <= 6 || NowResult(meets, pass).Err?
                                                               then Processing else Completed))
    {
      if throwAt <= 2 {
        return true;
      }
      job := Some(Processing);
      if throwAt < 5 {
        return true;
      }
      threw := TryToProcess(host, record, meets, now, throwAt);
      if threw && catchThrowAt > 0 {
        WriteEvent(EventRow(EventFailed, Some(now), Some(message)));
        if catchThrowAt > 1 {
          job := Some(JobFailed);
        }
      }
    }

    /** The try block. */
    method TryToProcess(host: Host, record: Record, meets: Meets, now: int, throwAt: nat) returns (threw: bool)
      requires Valid() && throwAt >= 5
      modifies this
      ensures Valid()
      ensures var pass := MetPass(host, old(Here()), record, meets);
              var ran := throwAt > 5;
              && threw == DeliveryThrows(meets, pass, throwAt)
              && runs == (if ran then pass.runs else old(runs))
              && rows == (if ran then pass.rows else old(rows))
              && event == (if ran && Updates(meets, pass) then FinalEvent(meets, now) else old(event))
              && job == if throwAt <= 6 || NowResult(meets, pass).Err? then old(job) else Some(Completed)
    {
      if throwAt == 5 {
        return true;
      }
      var r := ProcessWebhookEventNow(host, record, meets, now);
      if r.Err? || throwAt == 6 {
        return true;
      }
      job := Some(Completed);
      return throwAt < WEBHOOK_CALLS;
    }

    /** `retryEvent`: only a failed event. */
    method RetryEvent(host: Host, record: Record, meets: Meets, now: int, throwAt: nat)
      returns (r: Result<EventStatus, Refusal>)
      requires Valid()
      modifies this
      ensures Valid()
      ensures old(event).status != EventFailed ==> r == Err(NotFailed) && unchanged(this)
      ensures old(event).status == EventFailed ==>
                Restarted(host, record, meets, now, throwAt, old(event), old(job), old(Here()), r)
    {
      if event.status != EventFailed {
        return Err(NotFailed);
      }
      r := QueueOrProcessEvent(host, record, meets, now, throwAt);
    }

    /** `processEvent`: any event that is not final. */
    method ProcessEvent(host: Host, record: Record, meets: Meets, now: int, throwAt: nat)
      returns (r: Result<EventStatus, Refusal>)
      requires Valid()
      modifies this
      ensures Valid()
      ensures old(Final(event)) ==> r == Err(AlreadyFinal) && unchanged(this)
      ensures !old(Final(event)) ==>
                Restarted(host, record, meets, now, throwAt, old(event), old(job), old(Here()), r)
    {
      if event.status == Processed || event.status == Ignored {
        return Err(AlreadyFinal);
      }
      r := QueueOrProcessEvent(host, record, meets, now, throwAt);
    }

    /** The event is received again, and then processed at once or queued. */
    ghost predicate Restarted(host: Host, record: Record, meets: Meets, now: int, throwAt: nat, event0: EventRow,
                              job0: Option<JobStatus>, start: Pass, r: Result<EventStatus, Refusal>)
      reads this
    {
      var pass := MetPass(host, start, record, meets);
      var ran := throwAt > 0 && !async;
      && runs == (if ran then pass.runs else start.runs)
      && rows == (if ran then pass.rows else start.rows)
      && event == RestartedEvent(async, meets, pass, event0, now, throwAt)
      && job == (if async && throwAt > 2 then Some(JobQueued) else job0)
      && r == if RestartThrows(async, meets, pass, throwAt) then Err(Broken(StoreUnavailable)) else Ok(event.status)
    }

    method QueueOrProcessEvent(host: Host, record: Record, meets: Meets, now: int, throwAt: nat)
      returns (r: Result<EventStatus, Refusal>)
      requires Valid()
      modifies this
      ensures Valid()
      ensures Restarted(host, record, meets, now, throwAt, old(event), old(job), old(Here()), r)
    {
      if throwAt == 0 {
        return Err(Broken(StoreUnavailable));
      }
      WriteEvent(EventRow(Received, None, None));
      if async {
        if throwAt > 2 {
          job := Some(JobQueued);
        }
        return if throwAt < QUEUE_CALLS_ASYNC then Err(Broken(StoreUnavailable)) else Ok(Received);
      }
      var summary := ProcessWebhookEventNow(host, record, meets, now);
      if summary.Err? || throwAt == 1 {
        return Err(Broken(StoreUnavailable));
      }
      return Ok(event.status);
    }
  }

  lemma {:induction false} ThrownStays(start: Pass, ids: seq<string>, outcomes: seq<Outcome>, throwAts: nat -> nat,
                                       record: Record, k: nat, n: nat)
    requires k <= n <= |ids| == |outcomes| && PassOf(start, ids, outcomes, throwAts, record, k).threw
    ensures PassOf(start, ids, outcomes, throwAts, record, n) == PassOf(start, ids, outcomes, throwAts, record, k)
  {
    if k == n {
    } else {
      ThrownStays(start, ids, outcomes, throwAts, record, k, n - 1);
    }
  }

  // ----- conservation -----

  predicate Ended(run: WebhookRun) {
    run.status == Success || run.status == RunFailed
  }

  function AcceptedIn(outcomes: seq<Outcome>, n: nat): nat
    requires n <= |outcomes|
  {
    if n == 0 then 0 else AcceptedIn(outcomes, n - 1) + if outcomes[n - 1].Accepted? then 1 else 0
  }

  /** The runs of a pass, one a pipeline, after `base` older ones. */
  predicate RunsInOrder(base: nat, p: Pass, ids: seq<string>, outcomes: seq<Outcome>, n: nat)
    requires n <= |ids| == |outcomes|
  {
    |p.runs| == base + n && forall i :: 0 <= i < n ==> p.runs[base + i] == EndedRun(ids[i], outcomes[i])
  }

  lemma RunsInOrderStep(base: nat, p: Pass, ids: seq<string>, outcomes: seq<Outcome>, n: nat, throwAt: nat,
                        record: Record)
    requires n < |ids| == |outcomes| && RunsInOrder(base, p, ids, outcomes, n) && throwAt >= PassCalls(outcomes[n])
    ensures RunsInOrder(base, PassAfter(p, ids[n], outcomes[n], throwAt, record), ids, outcomes, n + 1)
  {
  }

  /** A pass that no call interrupts gives each pipeline exactly one run, ended as the pipeline decides, and
      one record for each run that succeeded. */
  lemma {:induction false} PassConserves(start: Pass, ids: seq<string>, outcomes: seq<Outcome>, throwAts: nat -> nat,
                                         record: Record, n: nat)
    requires n <= |ids| == |outcomes| && start == Before(start.runs, start.rows)
    requires !PassOf(start, ids, outcomes, throwAts, record, n).threw
    ensures var p := PassOf(start, ids, outcomes, throwAts, record, n);
            && RunsInOrder(|start.runs|, p, ids, outcomes, n) && p.processed + p.failed == n
            && |p.rows| == |start.rows| + p.processed && p.processed == AcceptedIn(outcomes, n)
  {
    if n == 0 {
    } else {
      PassConserves(start, ids, outcomes, throwAts, record, n - 1);
      RunsInOrderStep(|start.runs|, PassOf(start, ids, outcomes, throwAts, record, n - 1), ids, outcomes, n - 1,
                      throwAts(n - 1), record);
    }
  }

  /** What was there stays, and what is new comes after it. */
  predicate Extends(p: Pass, start: Pass) {
    start.runs <= p.runs && start.rows <= p.rows
  }

  /** Each new record belongs to a new run of its own pipeline, which accepted the payload, and no two records
      belong to the same run. */
  ghost predicate RowsBelong(start: Pass, p: Pass, outcomes: seq<Outcome>) {
    && (forall j :: |start.rows| <= j < |p.rows| ==>
          var i := p.rows[j].run;
          |start.runs| <= i < |p.runs| && i - |start.runs| < |outcomes| && p.rows[j].pipeline == p.runs[i].pipeline
          && outcomes[i - |start.runs|] == Accepted(p.rows[j].normalized))
    && (forall j, k :: |start.rows| <= j < k < |p.rows| ==> p.rows[j].run < p.rows[k].run)
  }

  lemma BelongStep(start: Pass, p: Pass, id: string, outcome: Outcome, throwAt: nat, record: Record,
                   outcomes: seq<Outcome>)
    requires RowsBelong(start, p, outcomes) && Extends(p, start)
    requires |p.runs| - |start.runs| < |outcomes| && outcomes[|p.runs| - |start.runs|] == outcome
    ensures var after := PassAfter(p, id, outcome, throwAt, record);
            RowsBelong(start, after, outcomes) && Extends(after, start)
  {
  }

  lemma {:induction false} RunsCounted(start: Pass, ids: seq<string>, outcomes: seq<Outcome>, throwAts: nat -> nat,
                                       record: Record, n: nat)
    requires n <= |ids| == |outcomes| && !start.threw
    requires !PassOf(start, ids, outcomes, throwAts, record, n).threw
    ensures |PassOf(start, ids, outcomes, throwAts, record, n).runs| == |start.runs| + n
  {
    if n == 0 {
    } else {
      RunsCounted(start, ids, outcomes, throwAts, record, n - 1);
    }
  }

  lemma {:induction false} PassRowsBelong(start: Pass, ids: seq<string>, outcomes: seq<Outcome>, throwAts: nat -> nat,
                                          record: Record, n: nat)
    requires n <= |ids| == |outcomes| && !start.threw
    ensures var p := PassOf(start, ids, outcomes, throwAts, record, n);
            RowsBelong(start, p, outcomes) && Extends(p, start)
  {
    if n == 0 {
    } else {
      PassRowsBelong(start, ids, outcomes, throwAts, record, n - 1);
      var p := PassOf(start, ids, outcomes, throwAts, record, n - 1);
      if !p.threw {
        RunsCounted(start, ids, outcomes, throwAts, record, n - 1);
        BelongStep(start, p, ids[n - 1], outcomes[n - 1], throwAts(n - 1), record, outcomes);
      }
    }
  }

  /** Of the runs after the first `base` at most one has not ended, and it is the last one. */
  predicate AlmostEnded(base: nat, p: Pass) {
    && base + p.processed + p.failed <= |p.runs| <= base + p.processed + p.failed + (if p.threw then 1 else 0)
    && (forall i :: base <= i < |p.runs| - 1 ==> Ended(p.runs[i]))
    && (!p.threw && |p.runs| > base ==> Ended(p.runs[|p.runs| - 1]))
  }

  lemma AlmostEndedStep(base: nat, p: Pass, id: string, outcome: Outcome, throwAt: nat, record: Record)
    requires AlmostEnded(base, p) && !p.threw
    ensures AlmostEnded(base, PassAfter(p, id, outcome, throwAt, record))
  {
  }

  /** An interrupted pass leaves at most one run that has not ended, the last one. */
  lemma {:induction false} InterruptedPass(start: Pass, ids: seq<string>, outcomes: seq<Outcome>, throwAts: nat -> nat,
                                           record: Record, n: nat)
    requires n <= |ids| == |outcomes| && start == Before(start.runs, start.rows)
    ensures AlmostEnded(|start.runs|, PassOf(start, ids, outcomes, throwAts, record, n))
  {
    if n == 0 {
    } else {
      InterruptedPass(start, ids, outcomes, throwAts, record, n - 1);
      var p := PassOf(start, ids, outcomes, throwAts, record, n - 1);
      if !p.threw {
        AlmostEndedStep(|start.runs|, p, ids[n - 1], outcomes[n - 1], throwAts(n - 1), record);
      }
    }
  }

  /** Processing that reports PROCESSED over n pipelines adds n runs, one a pipeline and all ended; processed
      and failed records add up to n; and it stores exactly the processed ones, each under its own run. */
  lemma ProcessedConserves(host: Host, start: Pass, record: Record, meets: Meets)
    requires start == Before(start.runs, start.rows)
    requires var r := NowResult(meets, MetPass(host, start, record, meets)); r.Ok? && r.value.status == Processed
    ensures var pass := MetPass(host, start, record, meets); var s := NowResult(meets, pass).value;
            var n, base, outcomes := |meets.pipelines|, |start.runs|,
                                     OutcomesOf(host, meets.pipelines, record.payload, meets.generated);
            && n > 0 && |s.pipelineIds| == n && RunsInOrder(base, pass, s.pipelineIds, outcomes, n)
            && s.recordsProcessed + s.recordsFailed == n && |pass.rows| == |start.rows| + s.recordsProcessed
            && RowsBelong(start, pass, outcomes) && Extends(pass, start)
  {
    var ids, outcomes := IdsOf(meets.pipelines), OutcomesOf(host, meets.pipelines, record.payload, meets.generated);
    PassConserves(start, ids, outcomes, meets.throwAts, record, |meets.pipelines|);
    PassRowsBelong(start, ids, outcomes, meets.throwAts, record, |meets.pipelines|);
  }

  /** When the catch block can write, a delivery that reaches its try block leaves the event final iff nothing
      threw and its connector exists. In every other case the event is failed and may be retried, even if a
      pass had ended and stored its records before the job update or the audit after it threw. */
  lemma FinalIffClean(meets: Meets, pass: Pass, event: EventRow, now: int, throwAt: nat, message: string,
                      catchThrowAt: nat)
    requires throwAt >= 5 && catchThrowAt > 0
    ensures var after := DeliveredEvent(meets, pass, event, now, throwAt, message, catchThrowAt);
            && (Final(after) <==>
                  meets.connectorFound && meets.fault == NoNowFault && !pass.threw && throwAt >= WEBHOOK_CALLS)
            && (!Final(after) ==> after.status == EventFailed)
  {
  }

  // ----- the life of an event -----

  /** What can happen to a stored event, with what it meets. */
  datatype EventOp =
    | Retried(meets: Meets, pass: Pass, now: int, throwAt: nat)
    | ProcessedByHand(meets: Meets, pass: Pass, now: int, throwAt: nat)
    | Delivered(meets: Meets, pass: Pass, now: int, throwAt: nat, message: string, catchThrowAt: nat)

  /** The event after `RetryEvent`, `ProcessEvent` or `ProcessQueuedWebhookEvent`. */
  function EventAfter(async: bool, event: EventRow, op: EventOp): EventRow {
    match op
    case Retried(meets, pass, now, throwAt) =>
      if event.status != EventFailed then event else RestartedEvent(async, meets, pass, event, now, throwAt)
    case ProcessedByHand(meets, pass, now, throwAt) =>
      if Final(event) then event else RestartedEvent(async, meets, pass, event, now, throwAt)
    case Delivered(meets, pass, now, throwAt, message, catchThrowAt) =>
      if throwAt < 5 then event else DeliveredEvent(meets, pass, event, now, throwAt, message, catchThrowAt)
  }

  /** The event as it was inserted, and what happened to it since, the latest outermost. */
  datatype EventHistory = Inserted | Then(past: EventHistory, op: EventOp)

  function EventOf(async: bool, h: EventHistory): EventRow {
    match h
    case Inserted => EventRow(Received, None, None)
    case Then(past, op) => EventAfter(async, EventOf(async, past), op)
  }

  /** Over every history: received iff without a processing time, failed iff with an error message. */
  lemma {:induction false} EventAlwaysOk(async: bool, h: EventHistory)
    ensures EventOk(EventOf(async, h))
  {
    match h
    case Inserted =>
    case Then(past, _) => EventAlwaysOk(async, past);
  }

  /** The delivery takes a final event back: it throws and can say so, or finds the connector gone. */
  predicate TakesBack(op: EventOp) {
    op.Delivered? && op.throwAt >= 5 &&
    ((DeliveryThrows(op.meets, op.pass, op.throwAt) && op.catchThrowAt > 0) ||
     (op.throwAt > 5 && Updates(op.meets, op.pass) && !op.meets.connectorFound))
  }

  /** `h` continues `earlier`, and no delivery since then takes the event back. */
  ghost predicate NoneTakesBack(h: EventHistory, earlier: EventHistory) {
    h == earlier || (h.Then? && !TakesBack(h.op) && NoneTakesBack(h.past, earlier))
  }

  /** A final event stays final through one operation iff that is not a delivery that takes it back; it is failed
      after that. */
  lemma FinalLostIff(async: bool, event: EventRow, op: EventOp)
    requires Final(event)
    ensures Final(EventAfter(async, event, op)) <==> !TakesBack(op)
    ensures !Final(EventAfter(async, event, op)) ==> EventAfter(async, event, op).status == EventFailed
  {
    if op.Delivered? && op.throwAt >= 5 && op.catchThrowAt > 0 {
      FinalIffClean(op.meets, op.pass, event, op.now, op.throwAt, op.message, op.catchThrowAt);
    }
  }

  /** So an event that is final once is final for the rest of any history in which no delivery takes it back,
      whatever users retry or process by hand. */
  lemma {:induction false} FinalStays(async: bool, h: EventHistory, earlier: EventHistory)
    requires NoneTakesBack(h, earlier) && Final(EventOf(async, earlier))
    ensures Final(EventOf(async, h))
  {
    if h == earlier {
    } else {
      FinalStays(async, h.past, earlier);
      FinalLostIff(async, EventOf(async, h.past), h.op);
    }
  }
}
