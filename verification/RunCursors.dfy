/** Which runs move the cursor, seen from the whole run: a delivery or a synchronous execution, and how it ends. */
module RunCursors {
  import opened Common
  import opened Json
  import opened Transformation
  import opened Cursors
  import opened RunRecords
  import opened CursorHistory
  import opened SyncRuns

  /** The pass of the run moves the cursor of its pipeline. */
  predicate RunMoves(host: Host, pipeline: Pipeline, cursorJson: Value, generated: nat -> string -> string,
                     batch: Batch)
  {
    && pipeline.incrementalMode
    && match CompiledMapping(host, pipeline.mapping)
       case Err(_) => false
       case Ok(fields) => Moves(host, cursorJson, TransformerOf(host, fields, generated), batch)
  }

  lemma EffectMovesIff(host: Host, pipeline: Pipeline, cursorJson: Value, generated: nat -> string -> string,
                       batch: Batch)
    requires host.Valid() && !batch.ignoreCursor
    ensures RunEffect(host, pipeline, cursorJson, generated, batch).cursorJson != cursorJson <==>
            RunMoves(host, pipeline, cursorJson, generated, batch)
  {
    match CompiledMapping(host, pipeline.mapping)
    case Err(_) =>
    case Ok(fields) =>
      if pipeline.incrementalMode {
        MovesIff(host, cursorJson, TransformerOf(host, fields, generated), batch);
      }
  }

  /** The cursor that a delivery leaves, as `ProcessQueuedSyncRun` says. */
  function DeliveryCursor(e: Effect, cursorJson: Value, throwAt: nat): Value {
    if throwAt < 8 then cursorJson else e.cursorJson
  }

  /** A delivery that throws inside its try block ends as failed, run and job; it has moved the cursor
      nevertheless iff it got to its pass and the pass moved it, whatever threw in the pass or after it. */
  lemma FailedDeliveryMovesIff(host: Host, pipeline: Pipeline, cursorJson: Value, generated: nat -> string -> string,
                               batch: Batch, p: Pair, throwAt: nat, catchThrowAt: nat)
    requires host.Valid() && !batch.ignoreCursor && throwAt >= 7 && catchThrowAt >= 3
    requires TryThrows(RunEffect(host, pipeline, cursorJson, generated, batch).result, throwAt)
    ensures var e := RunEffect(host, pipeline, cursorJson, generated, batch);
            && ApplyAll(p, DeliveryWrites(e.result, throwAt, catchThrowAt)) == Pair(Some(RunFailed), Some(JobFailed))
            && (DeliveryCursor(e, cursorJson, throwAt) != cursorJson <==>
                  throwAt >= 8 && RunMoves(host, pipeline, cursorJson, generated, batch))
  {
    EffectMovesIff(host, pipeline, cursorJson, generated, batch);
    DeliveryEnd(p, RunEffect(host, pipeline, cursorJson, generated, batch).result, throwAt, catchThrowAt);
  }

  /** A synchronous run that throws is left running or, after its last update, as it ended; it has moved the
      cursor iff it got to its pass and the pass moved it. */
  lemma ThrownExecutionMovesIff(host: Host, pipeline: Pipeline, cursorJson: Value, generated: nat -> string -> string,
                                batch: Batch, throwAt: nat)
    requires host.Valid() && !batch.ignoreCursor
    ensures var e := RunEffect(host, pipeline, cursorJson, generated, batch);
            && (ExecutedRun(e.result, throwAt) == Some(Running) <==> 0 < throwAt && (throwAt <= 3 || e.result.Err?))
            && ((if throwAt < 3 then cursorJson else e.cursorJson) != cursorJson <==>
                  throwAt >= 3 && RunMoves(host, pipeline, cursorJson, generated, batch))
  {
    EffectMovesIff(host, pipeline, cursorJson, generated, batch);
  }

  /** It comes to that: the update of the run throws after a clean pass over one record. */
  lemma FailedDeliveryMoves(host: Host, generated: nat -> string -> string, p: Pair)
    requires host.Valid()
    ensures var pipeline, first := Pipeline(map[], true), Cursor(Some(1.0), None);
            var e := RunEffect(host, pipeline, Null, generated, OneRecord(Marked(host, first), NoTailFault));
            && ApplyAll(p, DeliveryWrites(e.result, 8, 5)) == Pair(Some(RunFailed), Some(JobFailed))
            && DeliveryCursor(e, Null, 8) == Obj(CursorToJson(host, first))
  {
    var first := Cursor(Some(1.0), None);
    var batch := OneRecord(Marked(host, first), NoTailFault);
    var transform := TransformerOf(host, [], generated);
    assert Enumerates(host.entries(map[]), map[]);
    assert CompiledMapping(host, map[]) == Ok([]);
    MarkedCarries(host, first);
    assert EligibleOf(host, true, Null, batch) == batch.records;
    assert Handle(batch.records[0], Transformed(map[], []), NoFault).Stored?;
    assert batch.records[..0] == [];
    assert Latest(host, batch.records) == Some(first);
    CursorExactly(host, Null, transform, batch);
    DeliveryEnd(p, RunEffect(host, Pipeline(map[], true), Null, generated, batch).result, 8, 5);
  }
}
