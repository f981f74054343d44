/**
 A sync run and its background job: queueing, delivery to a worker, and the synchronous execution.
 A `throwAt` is the number of the awaited call, counted from 0, that throws; one past the last means none.
 */
module SyncRuns {
  import opened Common
  import opened Json
  import opened Transformation
  import opened RunRecords

  datatype RunStatus = RunQueued | Running | Success | RunFailed
  datatype JobStatus = JobQueued | Processing | Completed | JobFailed

  /** The two rows as the store holds them; None before they are created. */
  datatype Pair = Pair(run: Option<RunStatus>, job: Option<JobStatus>)

  datatype Write = SetRun(run: RunStatus) | SetJob(job: JobStatus)

  function Apply(p: Pair, w: Write): Pair {
    match w
    case SetRun(run) => p.(run := Some(run))
    case SetJob(job) => p.(job := Some(job))
  }

  function ApplyAll(p: Pair, ws: seq<Write>): Pair {
    if ws == [] then p else Apply(ApplyAll(p, ws[..|ws| - 1]), ws[|ws| - 1])
  }

  /** What must hold between run and job in every state. */
  predicate Coupled(p: Pair) {
    && (p.job.Some? ==> p.run.Some?)
    && (p.job == Some(JobQueued) ==> p.run == Some(RunQueued))
    && (p.run == Some(Running) ==> p.job == Some(Processing))
    && (p.job == Some(Completed) ==> p.run in {Some(Success), Some(RunFailed)})
    && (p.job == Some(JobFailed) ==> p.run == Some(RunFailed))
  }

  /** Every state on the way, the first one included, is coupled. */
  ghost predicate CoupledAlong(p: Pair, ws: seq<Write>) {
    forall n :: 0 <= n <= |ws| ==> Coupled(ApplyAll(p, ws[..n]))
  }

  function StatusOf(summary: Summary): RunStatus {
    if summary.recordsFailed > 0 then RunFailed else Success
  }

  // ----- the writes of queueing and of one delivery -----

  const QUEUE_CALLS := 5
  const DELIVERY_CALLS := 13

  function QueueWrites(throwAt: nat): seq<Write> {
    if throwAt == 0 then [] else if throwAt == 1 then [SetRun(RunQueued)] else [SetRun(RunQueued), SetJob(JobQueued)]
  }

  /** Calls 0 to 6 come before the try block, 7 is the pass over the records, 8 to 12 end the try block. */
  function BeforeTry(throwAt: nat): seq<Write> {
    if throwAt <= 3 then [] else if throwAt == 4 then [SetJob(Processing)] else [SetJob(Processing), SetRun(Running)]
  }

  function InsideTry(pass: Result<Summary, RunError>, throwAt: nat): seq<Write> {
    if throwAt <= 8 || pass.Err? then []
    else if throwAt <= 10 then [SetRun(StatusOf(pass.value))]
    else [SetRun(StatusOf(pass.value)), SetJob(Completed)]
  }

  function InsideCatch(catchThrowAt: nat): seq<Write> {
    if catchThrowAt == 0 then [] else if catchThrowAt <= 2 then [SetRun(RunFailed)]
    else [SetRun(RunFailed), SetJob(JobFailed)]
  }

  lemma DeliveryParts(pass: Result<Summary, RunError>, throwAt: nat, catchThrowAt: nat)
    requires throwAt >= 7
    ensures var tried := BeforeTry(throwAt) + InsideTry(pass, throwAt);
            DeliveryWrites(pass, throwAt, catchThrowAt) ==
            if TryThrows(pass, throwAt) then tried + InsideCatch(catchThrowAt) else tried
  {
  }

  predicate TryThrows(pass: Result<Summary, RunError>, throwAt: nat) {
    throwAt < DELIVERY_CALLS || pass.Err?
  }

  function DeliveryWrites(pass: Result<Summary, RunError>, throwAt: nat, catchThrowAt: nat): seq<Write> {
    if throwAt < 7 then BeforeTry(throwAt)
    else
      BeforeTry(throwAt) + InsideTry(pass, throwAt) +
      if TryThrows(pass, throwAt) then InsideCatch(catchThrowAt) else []
  }

  /** The run that `executeSyncRunNow` leaves; without a catch block a throw leaves it running. */
  function ExecutedRun(pass: Result<Summary, RunError>, throwAt: nat): Option<RunStatus> {
    if throwAt == 0 then None
    else if throwAt <= 3 || pass.Err? then Some(Running)
    else Some(StatusOf(pass.value))
  }

  // ----- the service -----

  datatype Pipeline = Pipeline(mapping: map<string, Value>, incrementalMode: bool)

  /** What a compiled mapping makes of the i-th record; `CompiledNeverThrows` rules the second case out. */
  function TransformerOf(host: Host, fields: seq<Field>, generated: nat -> string -> string): Transformer {
    (i: nat, raw: map<string, Value>) =>
      match TransformRecord(host, raw, fields, generated(i))
      case Ok(t) => t
      case Err(_) => Transformed(map[], [])
  }

  /** A whole pass, mapping included. */
  function RunEffect(host: Host, pipeline: Pipeline, cursorJson: Value, generated: nat -> string -> string,
                     batch: Batch): Effect
  {
    match CompiledMapping(host, pipeline.mapping)
    case Err(errors) => Effect([], cursorJson, Err(InvalidMapping(errors)))
    case Ok(fields) =>
      PassEffect(host, pipeline.incrementalMode, cursorJson, TransformerOf(host, fields, generated), batch)
  }

  class SyncRunsService {
    var run: Option<RunStatus>
    var job: Option<JobStatus>
    const store: PipelineStore
    /** Every write so far, in order. */
    ghost var writes: seq<Write>

    constructor (store: PipelineStore)
      ensures this.store == store && State() == Pair(None, None) && writes == []
    {
      this.store := store;
      run, job, writes := None, None, [];
    }

    function State(): Pair
      reads this
    {
      Pair(run, job)
    }

    method WriteRun(status: RunStatus)
      modifies this
      ensures State() == Apply(old(State()), SetRun(status)) && writes == old(writes) + [SetRun(status)]
    {
      run := Some(status);
      writes := writes + [SetRun(status)];
    }

    method WriteJob(status: JobStatus)
      modifies this
      ensures State() == Apply(old(State()), SetJob(status)) && writes == old(writes) + [SetJob(status)]
    {
      job := Some(status);
      writes := writes + [SetJob(status)];
    }

    /** `queueSyncRun`: the run, the job, the queue, then two audits. */
    method QueueSyncRun(throwAt: nat) returns (threw: bool)
      modifies this
      ensures threw == (throwAt < QUEUE_CALLS)
      ensures writes == old(writes) + QueueWrites(throwAt)
      ensures State() == ApplyAll(old(State()), QueueWrites(throwAt))
    {
      if throwAt == 0 {
        return true;
      }
      WriteRun(RunQueued);
      if throwAt == 1 {
        return true;
      }
      WriteJob(JobQueued);
      return throwAt < QUEUE_CALLS;
    }

    /** `processQueuedSyncRun`: one delivery of the job. */
    method ProcessQueuedSyncRun(host: Host, pipeline: Pipeline, generated: nat -> string -> string, batch: Batch,
                                throwAt: nat, catchThrowAt: nat)
      returns (threw: bool)
      modifies this, store
      ensures var e := RunEffect(host, pipeline, old(store.cursorJson), generated, batch);
              && threw == TryThrows(e.result, throwAt)
              && writes == old(writes) + DeliveryWrites(e.result, throwAt, catchThrowAt)
              && State() == ApplyAll(old(State()), DeliveryWrites(e.result, throwAt, catchThrowAt))
              && store.syncedRecords == old(store.syncedRecords) + (if throwAt < 8 then [] else e.rows)
              && store.cursorJson == if throwAt < 8 then old(store.cursorJson) else e.cursorJson
    {
      ghost var start, before, pass := State(), BeforeTry(throwAt),
                                       RunEffect(host, pipeline, store.cursorJson, generated, batch).result;
      threw := StartDelivery(throwAt);
      if !threw {
        threw := RunDelivery(host, pipeline, generated, batch, throwAt);
        ApplyConcat(start, before, InsideTry(pass, throwAt));
        if threw {
          FailDelivery(catchThrowAt);
          ApplyConcat(start, before + InsideTry(pass, throwAt), InsideCatch(catchThrowAt));
        }
        DeliveryParts(pass, throwAt, catchThrowAt);
      }
    }

    method StartDelivery(throwAt: nat) returns (threw: bool)
      modifies this
      ensures threw == (throwAt < 7)
      ensures writes == old(writes) + BeforeTry(throwAt)
      ensures State() == ApplyAll(old(State()), BeforeTry(throwAt))
    {
      if throwAt <= 3 {
        return true;
      }
      WriteJob(Processing);
      if throwAt == 4 {
        return true;
      }
      WriteRun(Running);
      return throwAt < 7;
    }

    /** The try block. */
    method RunDelivery(host: Host, pipeline: Pipeline, generated: nat -> string -> string, batch: Batch, throwAt: nat)
      returns (threw: bool)
      requires throwAt >= 7
      modifies this, store
      ensures var e := RunEffect(host, pipeline, old(store.cursorJson), generated, batch);
              && threw == TryThrows(e.result, throwAt)
              && writes == old(writes) + InsideTry(e.result, throwAt)
              && State() == ApplyAll(old(State()), InsideTry(e.result, throwAt))
              && store.syncedRecords == old(store.syncedRecords) + (if throwAt < 8 then [] else e.rows)
              && store.cursorJson == if throwAt < 8 then old(store.cursorJson) else e.cursorJson
    {
      if throwAt == 7 {
        return true;
      }
      var pass := PassOver(host, pipeline, generated, batch);
      if pass.Err? || throwAt == 8 {
        return true;
      }
      WriteRun(StatusOf(pass.value));
      if throwAt <= 10 {
        return true;
      }
      WriteJob(Completed);
      return throwAt < DELIVERY_CALLS;
    }

    /** The catch block. */
    method FailDelivery(catchThrowAt: nat)
      modifies this
      ensures writes == old(writes) + InsideCatch(catchThrowAt)
      ensures State() == ApplyAll(old(State()), InsideCatch(catchThrowAt))
    {
      if catchThrowAt == 0 {
        return;
      }
      WriteRun(RunFailed);
      if catchThrowAt <= 2 {
        return;
      }
      WriteJob(JobFailed);
    }

    method PassOver(host: Host, pipeline: Pipeline, generated: nat -> string -> string, batch: Batch)
      returns (r: Result<Summary, RunError>)
      modifies store
      ensures var e := RunEffect(host, pipeline, old(store.cursorJson), generated, batch);
              && r == e.result
              && store.syncedRecords == old(store.syncedRecords) + e.rows
              && store.cursorJson == e.cursorJson
    {
      var compiled := CompileMapping(host, pipeline.mapping);
      match compiled {
        case Err(errors) => r := Err(InvalidMapping(errors));
        case Ok(fields) =>
          r := store.ProcessRunRecords(host, pipeline.incrementalMode, TransformerOf(host, fields, generated), batch);
      }
    }

    /** `executeSyncRunNow`: no job and no catch block, so a throw leaves the run as it is. Call 0 creates the
        run, 1 audits, 2 is the pass, 3 is the final update, the others follow it. */
    method ExecuteSyncRunNow(host: Host, pipeline: Pipeline, generated: nat -> string -> string, batch: Batch,
                             throwAt: nat)
      returns (threw: bool)
      requires State() == Pair(None, None)
      modifies this, store
      ensures var e := RunEffect(host, pipeline, old(store.cursorJson), generated, batch);
              && threw == (throwAt < 7 || e.result.Err?)
              && run == ExecutedRun(e.result, throwAt)
              && job == None
              && store.syncedRecords == old(store.syncedRecords) + (if throwAt < 3 then [] else e.rows)
              && store.cursorJson == if throwAt < 3 then old(store.cursorJson) else e.cursorJson
    {
      if throwAt == 0 {
        return true;
      }
      WriteRun(Running);
      if throwAt <= 2 {
        return true;
      }
      var pass := PassOver(host, pipeline, generated, batch);
      if pass.Err? || throwAt == 3 {
        return true;
      }
      WriteRun(StatusOf(pass.value));
      return throwAt < 7;
    }
  }

  // ----- coupling -----

  lemma {:induction false} ApplyConcat(p: Pair, a: seq<Write>, b: seq<Write>)
    ensures ApplyAll(p, a + b) == ApplyAll(ApplyAll(p, a), b)
  {
    if b == [] {
      assert a + b == a;
    } else {
      assert (a + b)[..|a + b| - 1] == a + b[..|b| - 1];
      ApplyConcat(p, a, b[..|b| - 1]);
    }
  }

  lemma CoupledConcat(p: Pair, a: seq<Write>, b: seq<Write>)
    requires CoupledAlong(p, a) && CoupledAlong(ApplyAll(p, a), b)
    ensures CoupledAlong(p, a + b)
  {
    forall n | 0 <= n <= |a + b| ensures Coupled(ApplyAll(p, (a + b)[..n])) {
      if n <= |a| {
        assert (a + b)[..n] == a[..n];
      } else {
        assert (a + b)[..n] == a + b[..n - |a|];
        ApplyConcat(p, a, b[..n - |a|]);
      }
    }
  }

  /** Two writes at most, checked one by one. */
  lemma CoupledShort(p: Pair, ws: seq<Write>)
    requires |ws| <= 2 && Coupled(p)
    requires |ws| >= 1 ==> Coupled(Apply(p, ws[0]))
    requires |ws| == 2 ==> Coupled(Apply(Apply(p, ws[0]), ws[1]))
    ensures CoupledAlong(p, ws)
    ensures ApplyAll(p, ws) == if |ws| == 0 then p else if |ws| == 1 then Apply(p, ws[0])
                               else Apply(Apply(p, ws[0]), ws[1])
  {
  }

  lemma QueueKeepsCoupling(throwAt: nat)
    ensures CoupledAlong(Pair(None, None), QueueWrites(throwAt))
  {
  }

  /** One delivery keeps run and job coupled after every single write, from any coupled state that has both,
      wherever it throws, inside the try block, before it, or inside the catch block. */
  lemma DeliveryKeepsCoupling(p: Pair, pass: Result<Summary, RunError>, throwAt: nat, catchThrowAt: nat)
    requires Coupled(p) && p.run.Some? && p.job.Some?
    ensures var ws := DeliveryWrites(pass, throwAt, catchThrowAt);
            && CoupledAlong(p, ws) && ApplyAll(p, ws).run.Some? && ApplyAll(p, ws).job.Some?
  {
    var a := BeforeTry(throwAt);
    CoupledShort(p, a);
    if throwAt >= 7 {
      var q := ApplyAll(p, a);
      var b := InsideTry(pass, throwAt);
      CoupledShort(q, b);
      CoupledConcat(p, a, b);
      ApplyConcat(p, a, b);
      var s := ApplyAll(q, b);
      var c := if TryThrows(pass, throwAt) then InsideCatch(catchThrowAt) else [];
      CoupledShort(s, c);
      CoupledConcat(p, a + b, c);
      ApplyConcat(p, a + b, c);
    }
  }

  datatype Delivery = Delivery(pass: Result<Summary, RunError>, throwAt: nat, catchThrowAt: nat)

  /** The writes of queueing and of any number of deliveries, one after the other. */
  function HistoryWrites(deliveries: seq<Delivery>): seq<Write> {
    if deliveries == [] then QueueWrites(QUEUE_CALLS)
    else
      var d := deliveries[|deliveries| - 1];
      HistoryWrites(deliveries[..|deliveries| - 1]) + DeliveryWrites(d.pass, d.throwAt, d.catchThrowAt)
  }

  /** Over any history of redeliveries, one at a time, every state is coupled. */
  lemma {:induction false} CoupledOverHistory(deliveries: seq<Delivery>)
    ensures var ws := HistoryWrites(deliveries);
            && CoupledAlong(Pair(None, None), ws)
            && ApplyAll(Pair(None, None), ws).run.Some? && ApplyAll(Pair(None, None), ws).job.Some?
  {
    var start := Pair(None, None);
    if deliveries == [] {
      QueueKeepsCoupling(QUEUE_CALLS);
      CoupledShort(start, QueueWrites(QUEUE_CALLS));
    } else {
      var n := |deliveries| - 1;
      CoupledOverHistory(deliveries[..n]);
      var before := HistoryWrites(deliveries[..n]);
      var d := deliveries[n];
      assert before[..|before|] == before;
      DeliveryKeepsCoupling(ApplyAll(start, before), d.pass, d.throwAt, d.catchThrowAt);
      CoupledConcat(start, before, DeliveryWrites(d.pass, d.throwAt, d.catchThrowAt));
      ApplyConcat(start, before, DeliveryWrites(d.pass, d.throwAt, d.catchThrowAt));
    }
  }

  /** How a delivery that reaches its try block ends, when the catch block's writes succeed: clean iff the
      pass returned and nothing threw after it. A completed job can still fail: its audits come later. */
  lemma DeliveryEnd(p: Pair, pass: Result<Summary, RunError>, throwAt: nat, catchThrowAt: nat)
    requires throwAt >= 7 && catchThrowAt >= 3
    ensures ApplyAll(p, DeliveryWrites(pass, throwAt, catchThrowAt)) ==
            if pass.Ok? && throwAt >= DELIVERY_CALLS then Pair(Some(StatusOf(pass.value)), Some(Completed))
            else Pair(Some(RunFailed), Some(JobFailed))
    ensures pass.Ok? && 11 <= throwAt < DELIVERY_CALLS ==>
              SetJob(Completed) in DeliveryWrites(pass, throwAt, catchThrowAt)
  {
  }

  lemma TwoWrites(p: Pair, ws: seq<Write>)
    requires |ws| <= 2
    ensures ApplyAll(p, ws) == if |ws| == 0 then p else if |ws| == 1 then Apply(p, ws[0])
                               else Apply(Apply(p, ws[0]), ws[1])
  {
  }

  // ----- why one delivery at a time -----

  /** The order in which two workers' writes reach the store. */
  ghost predicate Merges(ws: seq<Write>, a: seq<Write>, b: seq<Write>)
    decreases |ws|
  {
    if ws == [] then a == [] && b == []
    else (a != [] && a[0] == ws[0] && Merges(ws[1..], a[1..], b)) ||
         (b != [] && b[0] == ws[0] && Merges(ws[1..], a, b[1..]))
  }

  /** What a write needs of the other row. */
  predicate Meets(p: Pair, w: Write) {
    match w
    case SetRun(RunQueued) => p.job != Some(Completed) && p.job != Some(JobFailed)
    case SetRun(Running) => p.job == Some(Processing)
    case SetRun(Success) => p.job != Some(JobQueued) && p.job != Some(JobFailed)
    case SetRun(RunFailed) => p.job != Some(JobQueued)
    case SetJob(JobQueued) => p.run == Some(RunQueued)
    case SetJob(Processing) => p.run.Some?
    case SetJob(Completed) => p.run in {Some(Success), Some(RunFailed)}
    case SetJob(JobFailed) => p.run == Some(RunFailed)
  }

  lemma MeetsIff(p: Pair, w: Write)
    requires Coupled(p)
    ensures Coupled(Apply(p, w)) <==> Meets(p, w)
  {
  }

  lemma OneMore(p: Pair, ws: seq<Write>, n: nat)
    requires n < |ws|
    ensures ApplyAll(p, ws[..n + 1]) == Apply(ApplyAll(p, ws[..n]), ws[n])
  {
    assert ws[..n + 1][..n] == ws[..n];
  }

  /** Each write finds the other row as it needs it. */
  ghost predicate AllMeet(p: Pair, ws: seq<Write>) {
    forall n :: 0 <= n < |ws| ==> Meets(ApplyAll(p, ws[..n]), ws[n])
  }

  /** Any writes, those of overlapping deliveries in any order included, keep run and job coupled throughout iff
      each write finds the other row as it needs it. */
  lemma CoupledAlongIff(p: Pair, ws: seq<Write>)
    requires Coupled(p)
    ensures CoupledAlong(p, ws) <==> AllMeet(p, ws)
  {
    if CoupledAlong(p, ws) {
      forall n | 0 <= n < |ws| ensures Meets(ApplyAll(p, ws[..n]), ws[n]) {
        OneMore(p, ws, n);
        assert Coupled(ApplyAll(p, ws[..n + 1])) && Coupled(ApplyAll(p, ws[..n]));
        MeetsIff(ApplyAll(p, ws[..n]), ws[n]);
      }
      assert AllMeet(p, ws);
    }
    if AllMeet(p, ws) {
      forall n | 0 <= n <= |ws| ensures Coupled(ApplyAll(p, ws[..n])) {
        MetSoFar(p, ws, n);
      }
    }
  }

  lemma {:induction false} MetSoFar(p: Pair, ws: seq<Write>, n: nat)
    requires n <= |ws| && Coupled(p) && AllMeet(p, ws)
    ensures Coupled(ApplyAll(p, ws[..n]))
  {
    if n == 0 {
      assert ws[..0] == [];
    } else {
      MetSoFar(p, ws, n - 1);
      OneMore(p, ws, n - 1);
      MeetsIff(ApplyAll(p, ws[..n - 1]), ws[n - 1]);
    }
  }

  /** Some overlaps are harmless: two deliveries in lockstep. */
  lemma LockstepIsHarmless(pass: Result<Summary, RunError>)
    requires pass.Ok?
    ensures var one := DeliveryWrites(pass, DELIVERY_CALLS, 0);
            var ws := [one[0], one[0], one[1], one[1], one[2], one[2], one[3], one[3]];
            Merges(ws, one, one) && CoupledAlong(Pair(Some(RunQueued), Some(JobQueued)), ws)
  {
    var one := DeliveryWrites(pass, DELIVERY_CALLS, 0);
    assert one == [SetJob(Processing), SetRun(Running), SetRun(StatusOf(pass.value)), SetJob(Completed)];
    var a, b := [one[0], one[0], one[1], one[1]], [one[2], one[2], one[3], one[3]];
    assert Merges(a + b, one, one) by {
      PairsMerge(one[3..], [one[3], one[3]]);
      assert one[2..][1..] == one[3..] && one[1..][1..] == one[2..];
      PairsMerge(one[2..], [one[2], one[2], one[3], one[3]]);
      PairsMerge(one[1..], [one[1], one[1], one[2], one[2], one[3], one[3]]);
      PairsMerge(one, a + b);
    }
    var p := Pair(Some(RunQueued), Some(JobQueued));
    CoupledPair(p, one[0]);
    CoupledPair(Apply(p, one[0]), one[1]);
    CoupledPair(Apply(Apply(p, one[0]), one[1]), one[2]);
    CoupledPair(Apply(Apply(Apply(p, one[0]), one[1]), one[2]), one[3]);
    CoupledConcat(p, [one[0], one[0]], [one[1], one[1]]);
    assert [one[0], one[0]] + [one[1], one[1]] == a;
    ApplyConcat(p, [one[0], one[0]], [one[1], one[1]]);
    CoupledConcat(p, a, [one[2], one[2]]);
    ApplyConcat(p, a, [one[2], one[2]]);
    CoupledConcat(p, a + [one[2], one[2]], [one[3], one[3]]);
    assert a + [one[2], one[2]] + [one[3], one[3]] == a + b;
    assert a + b == [one[0], one[0], one[1], one[1], one[2], one[2], one[3], one[3]];
  }

  /** A write twice in a row merges with the same write of two equal deliveries. */
  lemma PairsMerge(one: seq<Write>, ws: seq<Write>)
    requires one != [] && |ws| >= 2 && ws[0] == ws[1] == one[0]
    requires Merges(ws[2..], one[1..], one[1..]) || (|ws| == 2 && |one| == 1)
    ensures Merges(ws, one, one)
  {
  }

  lemma CoupledPair(p: Pair, w: Write)
    requires Coupled(p) && Meets(p, w)
    ensures CoupledAlong(p, [w, w]) && ApplyAll(p, [w, w]) == Apply(p, w)
  {
    MeetsIff(p, w);
    CoupledShort(p, [w, w]);
  }

  /** Two overlapping deliveries can leave a running run under a completed job. */
  lemma OverlapBreaksCoupling(pass: Result<Summary, RunError>)
    requires pass.Ok?
    ensures exists ws, n ::
              && Merges(ws, DeliveryWrites(pass, DELIVERY_CALLS, 0), DeliveryWrites(pass, DELIVERY_CALLS, 0))
              && 0 <= n <= |ws|
              && !Coupled(ApplyAll(Pair(Some(RunQueued), Some(JobQueued)), ws[..n]))
  {
    var end := SetRun(StatusOf(pass.value));
    var one := [SetJob(Processing), SetRun(Running), end, SetJob(Completed)];
    assert DeliveryWrites(pass, DELIVERY_CALLS, 0) == one;
    var ws := [SetJob(Processing)] + one + [SetRun(Running), end, SetJob(Completed)];
    assert one[1..] == [SetRun(Running), end, SetJob(Completed)];
    MergeTail(one, one[1..]);
    assert ws[1..] == one + one[1..];
    assert Merges(ws, one, one);
    var p := Pair(Some(RunQueued), Some(JobQueued));
    var prefix := ws[..6];
    var four := [SetJob(Processing), SetJob(Processing), SetRun(Running), end];
    assert prefix == four + [SetJob(Completed), SetRun(Running)];
    ApplyConcat(p, four, [SetJob(Completed), SetRun(Running)]);
    TwoWrites(ApplyAll(p, [SetJob(Processing), SetJob(Processing), SetRun(Running), end]),
              [SetJob(Completed), SetRun(Running)]);
    assert !Coupled(ApplyAll(p, ws[..6]));
  }

  lemma {:induction false} MergeTail(a: seq<Write>, b: seq<Write>)
    ensures Merges(a + b, a, b)
    decreases |a| + |b|
  {
    if a != [] {
      assert (a + b)[1..] == a[1..] + b;
      MergeTail(a[1..], b);
    } else if b != [] {
      assert a + b == b;
      assert b[1..] == [] + b[1..];
      MergeTail([], b[1..]);
    }
  }
}
