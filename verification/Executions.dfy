/** Preview, synchronous run and queued run of one pipeline over the same records. */
module Executions {
  import opened Common
  import opened Json
  import opened Paths
  import opened Transformation
  import opened Cursors
  import opened RunRecords
  import opened SyncRuns

  datatype PreviewItem = PreviewItem(externalId: Option<string>, raw: map<string, Value>,
                                     normalized: map<string, Value>, errors: seq<TransformationError>)

  datatype Preview = Preview(results: seq<PreviewItem>, recordsReceived: nat, recordsValid: int, recordsInvalid: nat)

  function ItemFor(record: SourceRecord, t: Transformed): PreviewItem {
    PreviewItem(record.externalId, EnsureObject(record.raw), t.normalized, t.errors)
  }

  function ItemAt(transform: Transformer, records: seq<SourceRecord>, i: nat): PreviewItem
    requires i < |records|
  {
    ItemFor(records[i], transform(i, EnsureObject(records[i].raw)))
  }

  function Items(transform: Transformer, records: seq<SourceRecord>, n: nat): (r: seq<PreviewItem>)
    requires n <= |records|
    ensures |r| == n && forall i :: 0 <= i < n ==> r[i] == ItemAt(transform, records, i)
  {
    seq(n, i requires 0 <= i < n => ItemAt(transform, records, i))
  }

  function InvalidItems(items: seq<PreviewItem>): (n: nat)
    ensures n <= |items|
  {
    if items == [] then 0
    else InvalidItems(items[..|items| - 1]) + if items[|items| - 1].errors != [] then 1 else 0
  }

  /** `previewTransformation`: refused if the mapping does not compile. */
  function PreviewTransformation(host: Host, pipeline: Pipeline, generated: nat -> string -> string,
                                 records: seq<SourceRecord>): Result<Preview, seq<TransformationError>>
  {
    var fields :- CompiledMapping(host, pipeline.mapping);
    var results := Items(TransformerOf(host, fields, generated), records, |records|);
    var recordsInvalid := InvalidItems(results);
    Ok(Preview(results, |records|, |records| - recordsInvalid, recordsInvalid))
  }

  /** The rows a run would store for the valid results of a preview, in order. */
  function ValidRows(items: seq<PreviewItem>): seq<Row> {
    if items == [] then []
    else
      var last := items[|items| - 1];
      ValidRows(items[..|items| - 1]) +
      if last.errors == [] then [Row(last.externalId, last.raw, last.normalized)] else []
  }

  function ErrorsIn(items: seq<PreviewItem>): nat {
    if items == [] then 0 else ErrorsIn(items[..|items| - 1]) + |items[|items| - 1].errors|
  }

  /** The records as `queueSyncRun` puts them on the queue. */
  function Queued(records: seq<SourceRecord>): (r: seq<SourceRecord>)
    ensures |r| == |records|
    ensures forall i :: 0 <= i < |r| ==> r[i] == InQueue(records[i])
  {
    seq(|records|, i requires 0 <= i < |records| => InQueue(records[i]))
  }

  function InQueue(record: SourceRecord): SourceRecord {
    SourceRecord(record.externalId, Obj(EnsureObject(record.raw)))
  }

  /** No store call fails. */
  function Calm(records: seq<SourceRecord>, ignoreCursor: bool): Batch {
    Batch(records, ignoreCursor, (_: nat) => NoFault, NoTailFault)
  }

  predicate ComputeFree(fields: seq<Field>) {
    forall i :: 0 <= i < |fields| ==> fields[i].compute.None?
  }

  // ----- without computed values, a record has one transform -----

  lemma {:induction false} SameRuns(run: Field -> Result<FieldResult, PathError>,
                                    other: Field -> Result<FieldResult, PathError>, fields: seq<Field>)
    requires forall i :: 0 <= i < |fields| ==> run(fields[i]) == other(fields[i])
    ensures RunFields(run, fields) == RunFields(other, fields)
  {
    if fields == [] {
    } else {
      SameRuns(run, other, fields[..|fields| - 1]);
    }
  }

  lemma OneResult(host: Host, raw: map<string, Value>, field: Field, g: string -> string, h: string -> string)
    requires field.compute.None?
    ensures Transformation.Running(host, raw, g)(field) == Transformation.Running(host, raw, h)(field)
  {
  }

  lemma OneTransform(host: Host, raw: map<string, Value>, fields: seq<Field>, g: string -> string, h: string -> string)
    requires ComputeFree(fields)
    ensures TransformRecord(host, raw, fields, g) == TransformRecord(host, raw, fields, h)
  {
    forall i | 0 <= i < |fields|
      ensures Transformation.Running(host, raw, g)(fields[i]) == Transformation.Running(host, raw, h)(fields[i])
    {
      OneResult(host, raw, fields[i], g, h);
    }
    SameRuns(Transformation.Running(host, raw, g), Transformation.Running(host, raw, h), fields);
  }

  lemma SameTransformer(host: Host, fields: seq<Field>, g: nat -> string -> string, h: nat -> string -> string,
                        i: nat, raw: map<string, Value>)
    requires ComputeFree(fields)
    ensures TransformerOf(host, fields, g)(i, raw) == TransformerOf(host, fields, h)(i, raw)
  {
    OneTransform(host, raw, fields, g(i), h(i));
  }

  // ----- a pass over a preview -----

  /** The tally of a pass says what the items of a preview say. */
  predicate Tells(tally: Tally, items: seq<PreviewItem>) {
    && tally.rows == ValidRows(items) && tally.created == |items| - InvalidItems(items)
    && tally.failed == InvalidItems(items) && tally.errors == ErrorsIn(items)
  }

  predicate HandledAs(h: Handling, item: PreviewItem) {
    h == if item.errors == [] then Stored(Row(item.externalId, item.raw, item.normalized)) else Invalid(|item.errors|)
  }

  lemma OneMoreItem(host: Host, tally: Tally, items: seq<PreviewItem>, h: Handling, item: PreviewItem)
    requires Tells(tally, items) && HandledAs(h, item)
    ensures Tells(Count(host, tally, h), items + [item])
  {
    assert (items + [item])[..|items|] == items;
  }

  lemma HandledAsPreviewed(transform: Transformer, faults: nat -> Fault, records: seq<SourceRecord>, i: nat)
    requires i < |records| && faults(i) == NoFault
    ensures HandledAs(HandlingAt(transform, faults, records, i), ItemAt(transform, records, i))
  {
  }

  lemma ItemsStep(transform: Transformer, records: seq<SourceRecord>, i: nat)
    requires i < |records|
    ensures Items(transform, records, i + 1) == Items(transform, records, i) + [ItemAt(transform, records, i)]
  {
  }

  lemma {:induction false} TallyOfPreview(host: Host, transform: Transformer, faults: nat -> Fault,
                                          records: seq<SourceRecord>, n: nat)
    requires n <= |records| && forall i :: faults(i) == NoFault
    ensures Tells(TallyOf(host, Handlings(transform, faults, records, n)), Items(transform, records, n))
  {
    if n == 0 {
    } else {
      var i := n - 1;
      TallyOfPreview(host, transform, faults, records, i);
      TallyStep(host, transform, faults, records, i);
      ItemsStep(transform, records, i);
      HandledAsPreviewed(transform, faults, records, i);
      OneMoreItem(host, TallyOf(host, Handlings(transform, faults, records, i)), Items(transform, records, i),
                  HandlingAt(transform, faults, records, i), ItemAt(transform, records, i));
    }
  }

  lemma {:induction false} CalmNeverStops(transform: Transformer, faults: nat -> Fault,
                                          records: seq<SourceRecord>, i: nat)
    requires i <= |records| && forall k :: faults(k) == NoFault
    ensures FirstThrow(transform, faults, records, i) == |records|
    decreases |records| - i
  {
    if i == |records| {
    } else {
      CalmNeverStops(transform, faults, records, i + 1);
    }
  }

  /** The same records, plain or through the queue, with the same or another source of computed values. */
  lemma SameHandling(transform: Transformer, other: Transformer, faults: nat -> Fault, records: seq<SourceRecord>,
                     i: nat)
    requires i < |records| && forall k, raw :: transform(k, raw) == other(k, raw)
    ensures HandlingAt(transform, faults, records, i) == HandlingAt(other, faults, Queued(records), i)
  {
    assert EnsureObject(Queued(records)[i].raw) == EnsureObject(records[i].raw);
  }

  lemma SameHandlings(transform: Transformer, other: Transformer, faults: nat -> Fault, records: seq<SourceRecord>,
                      n: nat)
    requires n <= |records| && forall k, raw :: transform(k, raw) == other(k, raw)
    ensures Handlings(transform, faults, records, n) == Handlings(other, faults, Queued(records), n)
  {
    forall i | 0 <= i < n
      ensures HandlingAt(transform, faults, records, i) == HandlingAt(other, faults, Queued(records), i)
    {
      SameHandling(transform, other, faults, records, i);
    }
  }

  lemma {:induction false} SameThrow(transform: Transformer, other: Transformer, faults: nat -> Fault,
                                     records: seq<SourceRecord>, i: nat)
    requires i <= |records| && forall k, raw :: transform(k, raw) == other(k, raw)
    ensures FirstThrow(transform, faults, records, i) == FirstThrow(other, faults, Queued(records), i)
    decreases |records| - i
  {
    if i == |records| {
    } else {
      SameHandling(transform, other, faults, records, i);
      SameThrow(transform, other, faults, records, i + 1);
    }
  }

  lemma QueuedWith(records: seq<SourceRecord>, record: SourceRecord)
    ensures Queued(records + [record]) == Queued(records) + [InQueue(record)]
  {
  }

  lemma SameVerdict(host: Host, record: SourceRecord, cursor: Option<Cursor>)
    ensures ShouldProcessRecord(host, InQueue(record), cursor) == ShouldProcessRecord(host, record, cursor)
  {
  }

  lemma {:induction false} SameEligible(host: Host, records: seq<SourceRecord>, cursor: Option<Cursor>)
    ensures Eligible(host, Queued(records), cursor) == Queued(Eligible(host, records, cursor))
  {
    if records == [] {
    } else {
      var before, last := records[..|records| - 1], records[|records| - 1];
      assert records == before + [last];
      SameEligible(host, before, cursor);
      QueuedWith(before, last);
      SameVerdict(host, last, cursor);
      EligibleWith(host, before, last, cursor);
      EligibleWith(host, Queued(before), InQueue(last), cursor);
      QueuedWith(Eligible(host, before, cursor), last);
    }
  }

  /** A pass in which every record is eligible and no store call fails, told from a preview. */
  lemma CalmPass(host: Host, incremental: bool, cursorJson: Value, transform: Transformer, records: seq<SourceRecord>,
                 ignoreCursor: bool)
    requires incremental ==> ignoreCursor
    ensures var e := PassEffect(host, incremental, cursorJson, transform, Calm(records, ignoreCursor));
            var items := Items(transform, records, |records|);
            && e.rows == ValidRows(items) && e.result.Ok?
            && e.result.value.recordsReceived == |records| && e.result.value.skippedByCursor == 0
            && e.result.value.recordsProcessed == |records| - InvalidItems(items)
            && e.result.value.recordsFailed == InvalidItems(items) && e.result.value.errorCount == ErrorsIn(items)
  {
    var batch := Calm(records, ignoreCursor);
    CalmNeverStops(transform, batch.faults, records, 0);
    TallyOfPreview(host, transform, batch.faults, records, |records|);
  }

  /** A batch as it comes out of the queue. */
  function QueuedBatch(batch: Batch): Batch {
    batch.(records := Queued(batch.records))
  }

  lemma QueuedEligible(host: Host, incremental: bool, cursorJson: Value, batch: Batch)
    ensures EligibleOf(host, incremental, cursorJson, QueuedBatch(batch)) ==
            Queued(EligibleOf(host, incremental, cursorJson, batch))
  {
    SameEligible(host, batch.records, NormalizeCursorState(host, cursorJson));
  }

  /** Going through the queue makes no difference to a pass, whatever is filtered and whatever fails. */
  lemma QueuedPass(host: Host, incremental: bool, cursorJson: Value, transform: Transformer, other: Transformer,
                   batch: Batch)
    requires forall i, raw :: transform(i, raw) == other(i, raw)
    ensures PassEffect(host, incremental, cursorJson, transform, batch)
         == PassEffect(host, incremental, cursorJson, other, QueuedBatch(batch))
  {
    var eligible := EligibleOf(host, incremental, cursorJson, batch);
    QueuedEligible(host, incremental, cursorJson, batch);
    SameThrow(transform, other, batch.faults, eligible, 0);
    SameHandlings(transform, other, batch.faults, eligible, FirstThrow(transform, batch.faults, eligible, 0));
  }

  lemma TransformersAgree(host: Host, fields: seq<Field>, g: nat -> string -> string, h: nat -> string -> string)
    requires ComputeFree(fields)
    ensures forall i, raw :: TransformerOf(host, fields, g)(i, raw) == TransformerOf(host, fields, h)(i, raw)
  {
    forall i, raw ensures TransformerOf(host, fields, g)(i, raw) == TransformerOf(host, fields, h)(i, raw) {
      SameTransformer(host, fields, g, h, i, raw);
    }
  }

  predicate ComputesNothing(host: Host, pipeline: Pipeline) {
    match CompiledMapping(host, pipeline.mapping) case Ok(fields) => ComputeFree(fields) case Err(_) => true
  }

  /** Without computed values a synchronous and a queued run over the same records have the same effect, with the
      cursor filter on or off and for every placement of failing calls: rows, cursor and result. If the pass
      returns they end with the same status; if it throws, the one is left running and the other fails. */
  lemma SyncAndQueuedAgree(host: Host, pipeline: Pipeline, cursorJson: Value, batch: Batch,
                           g: nat -> string -> string, h: nat -> string -> string)
    requires ComputesNothing(host, pipeline)
    ensures var now := RunEffect(host, pipeline, cursorJson, g, batch);
            var queued := RunEffect(host, pipeline, cursorJson, h, QueuedBatch(batch));
            && queued == now
            && (now.result.Ok? ==> RunNow(now.result) == RunQueuedThrough(queued.result))
            && (now.result.Err? ==>
                  RunNow(now.result) == Some(Running) && RunQueuedThrough(queued.result) == Some(RunFailed))
  {
    match CompiledMapping(host, pipeline.mapping) {
      case Err(_) =>
      case Ok(fields) =>
        TransformersAgree(host, fields, g, h);
        QueuedPass(host, pipeline.incrementalMode, cursorJson, TransformerOf(host, fields, g),
                   TransformerOf(host, fields, h), batch);
    }
    QueuedEnd(RunEffect(host, pipeline, cursorJson, g, batch).result);
  }

  /** For a compute-free mapping, with cursor filtering off and no store failure, the three executions agree:
      a run stores exactly the valid results of the preview, in order, and counts what the preview counts;
      synchronous and queued run add the same rows, leave the same cursor, return the same summary and end
      with the same run status, which is Success iff the preview shows no invalid record. */
  lemma ThreeExecutionsAgree(host: Host, pipeline: Pipeline, cursorJson: Value, records: seq<SourceRecord>,
                             ignoreCursor: bool, g0: nat -> string -> string, g1: nat -> string -> string,
                             g2: nat -> string -> string)
    requires pipeline.incrementalMode ==> ignoreCursor
    requires CompiledMapping(host, pipeline.mapping).Ok?
    requires ComputeFree(CompiledMapping(host, pipeline.mapping).value)
    ensures var preview := PreviewTransformation(host, pipeline, g0, records);
            var now := RunEffect(host, pipeline, cursorJson, g1, Calm(records, ignoreCursor));
            var queued := RunEffect(host, pipeline, cursorJson, g2, QueuedBatch(Calm(records, ignoreCursor)));
            && preview.Ok? && now.result.Ok? && queued == now
            && now.rows == ValidRows(preview.value.results)
            && now.result.value.recordsProcessed == preview.value.recordsValid
            && now.result.value.recordsFailed == preview.value.recordsInvalid
            && now.result.value.recordsReceived == preview.value.recordsReceived
            && now.result.value.errorCount == ErrorsIn(preview.value.results)
            && RunNow(now.result) == RunQueuedThrough(queued.result)
                 == Some(if preview.value.recordsInvalid == 0 then Success else RunFailed)
  {
    var fields := CompiledMapping(host, pipeline.mapping).value;
    TransformersAgree(host, fields, g0, g1);
    SamePreview(TransformerOf(host, fields, g0), TransformerOf(host, fields, g1), records);
    CalmPass(host, pipeline.incrementalMode, cursorJson, TransformerOf(host, fields, g1), records, ignoreCursor);
    SyncAndQueuedAgree(host, pipeline, cursorJson, Calm(records, ignoreCursor), g1, g2);
    QueuedEnd(RunEffect(host, pipeline, cursorJson, g1, Calm(records, ignoreCursor)).result);
  }

  lemma SamePreview(transform: Transformer, other: Transformer, records: seq<SourceRecord>)
    requires forall i, raw :: transform(i, raw) == other(i, raw)
    ensures Items(transform, records, |records|) == Items(other, records, |records|)
  {
  }

  /** The run after `executeSyncRunNow`, and after queueing and one delivery, when no store call fails. */
  function RunNow(pass: Result<Summary, RunError>): Option<RunStatus> {
    ExecutedRun(pass, 7)
  }

  function RunQueuedThrough(pass: Result<Summary, RunError>): Option<RunStatus> {
    ApplyAll(ApplyAll(Pair(None, None), QueueWrites(QUEUE_CALLS)), DeliveryWrites(pass, DELIVERY_CALLS, 5)).run
  }

  lemma QueuedEnd(pass: Result<Summary, RunError>)
    ensures RunQueuedThrough(pass) == Some(if pass.Ok? then StatusOf(pass.value) else RunFailed)
  {
    DeliveryEnd(ApplyAll(Pair(None, None), QueueWrites(QUEUE_CALLS)), pass, DELIVERY_CALLS, 5);
  }

  /** Where they part: a mapping that does not compile is refused by the preview, leaves a synchronous run
      running for ever, and ends a queued one as failed. Neither run stores anything or moves the cursor. */
  lemma BrokenMappingParts(host: Host, pipeline: Pipeline, cursorJson: Value, batch: Batch,
                           generated: nat -> string -> string)
    ensures var preview := PreviewTransformation(host, pipeline, generated, batch.records);
            var e := RunEffect(host, pipeline, cursorJson, generated, batch);
            && (preview.Err? <==> CompiledMapping(host, pipeline.mapping).Err?)
            && (preview.Err? ==>
                  && e == Effect([], cursorJson, Err(InvalidMapping(preview.error)))
                  && RunNow(e.result) == Some(Running) && RunQueuedThrough(e.result) == Some(RunFailed))
  {
    QueuedEnd(RunEffect(host, pipeline, cursorJson, generated, batch).result);
  }
}
