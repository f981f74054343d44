/** What a processed webhook event leaves, told from the mappings of its pipelines and from their previews. */
module WebhookRecords {
  import opened Common
  import opened Json
  import opened Transformation
  import opened Webhooks
  import RunRecords
  import SyncRuns
  import Executions

  /** The mapping of the pipeline compiles, and makes this of the payload without an error. */
  ghost predicate TransformsTo(host: Host, pipeline: PipelineRow, payload: map<string, Value>,
                               generated: string -> string, normalized: map<string, Value>) {
    var compiled := CompiledMapping(host, pipeline.mapping);
    compiled.Ok? && TransformRecord(host, payload, compiled.value, generated) == Ok(Transformed(normalized, []))
  }

  ghost predicate Transforms(host: Host, pipeline: PipelineRow, payload: map<string, Value>,
                             generated: string -> string) {
    exists normalized :: TransformsTo(host, pipeline, payload, generated, normalized)
  }

  lemma AcceptedIff(host: Host, pipeline: PipelineRow, payload: map<string, Value>, generated: string -> string,
                    normalized: map<string, Value>)
    ensures OutcomeOf(host, pipeline, payload, generated) == Accepted(normalized) <==>
            TransformsTo(host, pipeline, payload, generated, normalized)
    ensures OutcomeOf(host, pipeline, payload, generated) == Rejected <==>
            !Transforms(host, pipeline, payload, generated)
  {
    var outcome := OutcomeOf(host, pipeline, payload, generated);
    if outcome.Accepted? {
      assert TransformsTo(host, pipeline, payload, generated, outcome.normalized);
    }
  }

  // ----- the records of a pass -----

  /** The records that a pass has added. */
  function Added(start: Pass, p: Pass): seq<SyncedRow>
    requires |start.rows| <= |p.rows|
  {
    p.rows[|start.rows|..]
  }

  /** What a pipeline makes of the payload, or nothing. */
  type Output = Option<map<string, Value>>

  function OutputOf(outcome: Outcome): Output {
    match outcome case Accepted(normalized) => Some(normalized) case Rejected => None
  }

  /** The run of a pipeline that has stored an output, or has failed without one. */
  function RunWith(id: string, output: Output): WebhookRun {
    if output.Some? then WebhookRun(id, SyncRuns.Success, 1, 1, 0) else WebhookRun(id, SyncRuns.RunFailed, 1, 0, 1)
  }

  function RowWith(id: string, output: Output, run: nat, record: Record): seq<SyncedRow> {
    if output.Some? then [SyncedRow(id, run, record.externalId, record.payload, output.value)] else []
  }

  /** The records of the first k outputs, each under its own run; the first run has number `base`. */
  function RowsWith(base: nat, ids: seq<string>, outputs: seq<Output>, record: Record, k: nat): seq<SyncedRow>
    requires k <= |ids| == |outputs|
  {
    if k == 0 then []
    else RowsWith(base, ids, outputs, record, k - 1) + RowWith(ids[k - 1], outputs[k - 1], base + k - 1, record)
  }

  lemma AddedAfter(start: Pass, p: Pass, id: string, outcome: Outcome, throwAt: nat, record: Record)
    requires Extends(p, start) && !PassAfter(p, id, outcome, throwAt, record).threw
    ensures var after := PassAfter(p, id, outcome, throwAt, record);
            && Extends(after, start) && |after.runs| == |p.runs| + 1
            && Added(start, after) == Added(start, p) + RowWith(id, OutputOf(outcome), |p.runs|, record)
  {
  }

  lemma PassStep(start: Pass, ids: seq<string>, outcomes: seq<Outcome>, throwAts: nat -> nat, record: Record, n: nat)
    requires 0 < n <= |ids| == |outcomes| && !PassOf(start, ids, outcomes, throwAts, record, n).threw
    ensures var p := PassOf(start, ids, outcomes, throwAts, record, n - 1);
            && !p.threw
            && PassOf(start, ids, outcomes, throwAts, record, n) ==
               PassAfter(p, ids[n - 1], outcomes[n - 1], throwAts(n - 1), record)
  {
  }

  lemma {:induction false} AddedByPass(start: Pass, ids: seq<string>, outcomes: seq<Outcome>, outputs: seq<Output>,
                                       throwAts: nat -> nat, record: Record, n: nat)
    requires n <= |ids| == |outcomes| == |outputs| && !PassOf(start, ids, outcomes, throwAts, record, n).threw
    requires forall i :: 0 <= i < |outcomes| ==> outputs[i] == OutputOf(outcomes[i])
    ensures var p := PassOf(start, ids, outcomes, throwAts, record, n);
            && Extends(p, start) && |p.runs| == |start.runs| + n
            && Added(start, p) == RowsWith(|start.runs|, ids, outputs, record, n)
  {
    if n == 0 {
      assert Added(start, start) == [];
    } else {
      PassStep(start, ids, outcomes, throwAts, record, n);
      AddedByPass(start, ids, outcomes, outputs, throwAts, record, n - 1);
      AddedAfter(start, PassOf(start, ids, outcomes, throwAts, record, n - 1), ids[n - 1], outcomes[n - 1],
                 throwAts(n - 1), record);
    }
  }

  // ----- the runs and records of an event -----

  /** The event reaches its pipelines, and no call of their passes throws. */
  predicate Uninterrupted(host: Host, start: Pass, record: Record, meets: Meets) {
    && start == Before(start.runs, start.rows) && meets.connectorFound && meets.fault != LookupThrows
    && !MetPass(host, start, record, meets).threw
  }

  /** The runs and records of an event with these outputs: every pipeline gets a run that ends with its output, and
      every output is stored, in order, under its run. */
  predicate Leaves(start: Pass, pass: Pass, pipelines: seq<PipelineRow>, outputs: seq<Output>, record: Record) {
    && |outputs| == |pipelines| && Extends(pass, start) && |pass.runs| == |start.runs| + |pipelines|
    && (forall i :: 0 <= i < |pipelines| ==> pass.runs[|start.runs| + i] == RunWith(pipelines[i].id, outputs[i]))
    && Added(start, pass) == RowsWith(|start.runs|, IdsOf(pipelines), outputs, record, |pipelines|)
  }

  function OutputsOf(outcomes: seq<Outcome>): (r: seq<Output>)
    ensures |r| == |outcomes| && forall i :: 0 <= i < |r| ==> r[i] == OutputOf(outcomes[i])
  {
    seq(|outcomes|, i requires 0 <= i < |outcomes| => OutputOf(outcomes[i]))
  }

  lemma LeavesOutcomes(host: Host, start: Pass, record: Record, meets: Meets)
    requires Uninterrupted(host, start, record, meets)
    ensures Leaves(start, MetPass(host, start, record, meets), meets.pipelines,
                   OutputsOf(OutcomesOf(host, meets.pipelines, record.payload, meets.generated)), record)
  {
    var ids, outcomes := IdsOf(meets.pipelines), OutcomesOf(host, meets.pipelines, record.payload, meets.generated);
    AddedByPass(start, ids, outcomes, OutputsOf(outcomes), meets.throwAts, record, |meets.pipelines|);
    PassConserves(start, ids, outcomes, meets.throwAts, record, |meets.pipelines|);
    EachRunEnds(start, MetPass(host, start, record, meets), meets.pipelines, outcomes);
  }

  lemma EachRunEnds(start: Pass, pass: Pass, pipelines: seq<PipelineRow>, outcomes: seq<Outcome>)
    requires |outcomes| == |pipelines| && RunsInOrder(|start.runs|, pass, IdsOf(pipelines), outcomes, |pipelines|)
    ensures forall i :: 0 <= i < |pipelines| ==>
              pass.runs[|start.runs| + i] == RunWith(pipelines[i].id, OutputOf(outcomes[i]))
  {
    forall i | 0 <= i < |pipelines|
      ensures pass.runs[|start.runs| + i] == RunWith(pipelines[i].id, OutputOf(outcomes[i]))
    {
      assert pass.runs[|start.runs| + i] == EndedRun(IdsOf(pipelines)[i], outcomes[i]);
    }
  }

  /** The output of a pipeline is what its mapping makes of the payload without an error; it has none iff the mapping
      does not compile or there is an error. */
  ghost predicate IsOutput(host: Host, pipeline: PipelineRow, payload: map<string, Value>,
                           generated: string -> string, output: Output) {
    match output
    case Some(normalized) => TransformsTo(host, pipeline, payload, generated, normalized)
    case None => !Transforms(host, pipeline, payload, generated)
  }

  /** After a pass that nothing interrupts every pipeline has a run, a success with its output stored, iff its mapping
      compiles and transforms the payload without an error; otherwise a failed one that stored nothing. */
  lemma EventLeaves(host: Host, start: Pass, record: Record, meets: Meets) returns (outputs: seq<Output>)
    requires Uninterrupted(host, start, record, meets)
    ensures Leaves(start, MetPass(host, start, record, meets), meets.pipelines, outputs, record)
    ensures forall i :: 0 <= i < |outputs| ==>
              IsOutput(host, meets.pipelines[i], record.payload, meets.generated(i), outputs[i])
  {
    outputs := OutputsOf(OutcomesOf(host, meets.pipelines, record.payload, meets.generated));
    LeavesOutcomes(host, start, record, meets);
    forall i | 0 <= i < |outputs|
      ensures IsOutput(host, meets.pipelines[i], record.payload, meets.generated(i), outputs[i])
    {
      OutcomeAt(host, meets.pipelines, record.payload, meets.generated, i);
      OutcomeIsOutput(host, meets.pipelines[i], record.payload, meets.generated(i));
    }
  }

  lemma OutcomeIsOutput(host: Host, pipeline: PipelineRow, payload: map<string, Value>, generated: string -> string)
    ensures IsOutput(host, pipeline, payload, generated, OutputOf(OutcomeOf(host, pipeline, payload, generated)))
  {
    var outcome := OutcomeOf(host, pipeline, payload, generated);
    AcceptedIff(host, pipeline, payload, generated, if outcome.Accepted? then outcome.normalized else map[]);
  }

  // ----- and the preview -----

  function PreviewOf(host: Host, pipeline: PipelineRow, record: Record, generated: string -> string)
    : Result<Executions.Preview, seq<TransformationError>>
  {
    Executions.PreviewTransformation(host, SyncRuns.Pipeline(pipeline.mapping, false), (_: nat) => generated,
                                     [RunRecords.SourceRecord(Some(record.externalId), Obj(record.payload))])
  }

  lemma ValidIffNoErrors(host: Host, pipeline: PipelineRow, record: Record, generated: string -> string)
    requires CompiledMapping(host, pipeline.mapping).Ok?
    ensures var preview := PreviewOf(host, pipeline, record, generated);
            var r := TransformRecord(host, record.payload, CompiledMapping(host, pipeline.mapping).value, generated);
            && preview.Ok? && |preview.value.results| == 1 && r.Ok?
            && preview.value.results[0].normalized == r.value.normalized
            && (preview.value.recordsValid == 1 <==> r.value.errors == [])
  {
    var fields := CompiledMapping(host, pipeline.mapping).value;
    CompileSound(host, pipeline.mapping);
    CompiledNeverThrows(host, record.payload, fields, generated);
    var items := PreviewOf(host, pipeline, record, generated).value.results;
    assert items[..0] == [];
  }

  lemma PreviewTells(host: Host, pipeline: PipelineRow, record: Record, generated: string -> string)
    ensures var preview := PreviewOf(host, pipeline, record, generated);
            if preview.Ok? && preview.value.recordsValid == 1
            then && |preview.value.results| == 1
                 && TransformsTo(host, pipeline, record.payload, generated, preview.value.results[0].normalized)
            else !Transforms(host, pipeline, record.payload, generated)
  {
    if CompiledMapping(host, pipeline.mapping).Ok? {
      ValidIffNoErrors(host, pipeline, record, generated);
    }
  }

  /** So an event does what the previews of its payload say: a pipeline stores the previewed output iff its preview
      is valid, and fails otherwise. */
  lemma EndsAsPreviewed(host: Host, start: Pass, record: Record, meets: Meets) returns (outputs: seq<Output>)
    requires Uninterrupted(host, start, record, meets)
    ensures Leaves(start, MetPass(host, start, record, meets), meets.pipelines, outputs, record)
    ensures forall i :: 0 <= i < |outputs| ==>
              var preview := PreviewOf(host, meets.pipelines[i], record, meets.generated(i));
              if preview.Ok? && preview.value.recordsValid == 1
              then |preview.value.results| == 1 && outputs[i] == Some(preview.value.results[0].normalized)
              else outputs[i] == None
  {
    outputs := EventLeaves(host, start, record, meets);
    forall i | 0 <= i < |outputs|
      ensures var preview := PreviewOf(host, meets.pipelines[i], record, meets.generated(i));
              if preview.Ok? && preview.value.recordsValid == 1
              then |preview.value.results| == 1 && outputs[i] == Some(preview.value.results[0].normalized)
              else outputs[i] == None
    {
      PreviewTells(host, meets.pipelines[i], record, meets.generated(i));
    }
  }

  /** The event ends as its processing reports: failed without a connector, ignored without pipelines, processed
      otherwise, for all of its pipelines in order. */
  lemma EventEndsAs(meets: Meets, pass: Pass, now: int)
    requires NowResult(meets, pass).Ok?
    ensures var s := NowResult(meets, pass).value; var event := FinalEvent(meets, now);
            && event.status == s.status && event.processedAt == Some(now)
            && (s.status == EventFailed <==> !meets.connectorFound)
            && (s.status == Ignored <==> meets.connectorFound && meets.pipelines == [])
            && (s.status == Processed <==> meets.connectorFound && meets.pipelines != [])
            && (s.status == Processed ==>
                  |s.pipelineIds| == |meets.pipelines| &&
                  forall i :: 0 <= i < |meets.pipelines| ==> s.pipelineIds[i] == meets.pipelines[i].id)
  {
  }
}
