/** One pass of a sync run over its records: filter, transform, persist, count, and move the cursor. */
module RunRecords {
  import opened Common
  import opened Json
  import opened Transformation
  import opened Cursors

  datatype SourceRecord = SourceRecord(externalId: Option<string>, raw: Value)

  datatype Row = Row(externalId: Option<string>, raw: map<string, Value>, normalized: map<string, Value>)

  /** Which store call throws while one record is handled: the audit of a failed transformation, the
      creation of the row, or one of the two audits that follow it. */
  datatype Fault = NoFault | FailureAuditThrows | CreateThrows | AuditThrows

  /** Which store call throws after the records: the cursor update, or the audit that follows. */
  datatype TailFault = NoTailFault | CursorUpdateThrows | CursorAuditThrows

  datatype RunError = InvalidMapping(errors: seq<TransformationError>) | StoreUnavailable

  datatype Summary = Summary(
    recordsReceived: nat, recordsProcessed: nat, recordsFailed: nat, errorCount: nat, skippedByCursor: nat,
    cursorAdvanced: bool, cursorValue: Option<map<string, Value>>)

  predicate ShouldProcessRecord(host: Host, record: SourceRecord, cursor: Option<Cursor>) {
    cursor.None? ||
    var candidate := ExtractCursorCandidate(host, EnsureObject(record.raw));
    candidate.None? || IsCandidateNewer(candidate.value, cursor.value)
  }

  function Eligible(host: Host, records: seq<SourceRecord>, cursor: Option<Cursor>): (r: seq<SourceRecord>)
    ensures |r| <= |records|
  {
    if records == [] then []
    else
      var last := records[|records| - 1];
      Eligible(host, records[..|records| - 1], cursor) +
      if ShouldProcessRecord(host, last, cursor) then [last] else []
  }

  lemma EligibleWith(host: Host, records: seq<SourceRecord>, record: SourceRecord, cursor: Option<Cursor>)
    ensures Eligible(host, records + [record], cursor) ==
            if ShouldProcessRecord(host, record, cursor) then Eligible(host, records, cursor) + [record]
            else Eligible(host, records, cursor)
  {
    assert (records + [record])[..|records|] == records;
  }

  // ----- one record -----

  /** How a record ends: refused by the mapping, not stored, stored, or stored with an audit missing.
      The last one counts both as processed and as failed. */
  datatype Handling = Invalid(errors: nat) | NotStored | Stored(row: Row) | StoredUnaudited(row: Row)

  function Handle(record: SourceRecord, t: Transformed, fault: Fault): Handling {
    var row := Row(record.externalId, EnsureObject(record.raw), t.normalized);
    if t.errors != [] then Invalid(|t.errors|)
    else match fault
      case CreateThrows => NotStored
      case AuditThrows => StoredUnaudited(row)
      case _ => Stored(row)
  }

  datatype Tally = Tally(rows: seq<Row>, created: nat, failed: nat, errors: nat, latest: Option<Cursor>)

  function Count(host: Host, t: Tally, h: Handling): Tally {
    match h
    case Invalid(errors) => t.(failed := t.failed + 1, errors := t.errors + errors)
    case NotStored => t.(failed := t.failed + 1, errors := t.errors + 1)
    case Stored(row) => Persisted(host, t, row)
    case StoredUnaudited(row) =>
      Persisted(host, t, row).(failed := t.failed + 1, errors := t.errors + 1)
  }

  function Persisted(host: Host, t: Tally, row: Row): Tally {
    t.(rows := t.rows + [row], created := t.created + 1,
       latest := PickLatestCursor(t.latest, ExtractCursorCandidate(host, row.raw)))
  }

  function TallyOf(host: Host, handlings: seq<Handling>): Tally {
    if handlings == [] then Tally([], 0, 0, 0, None)
    else Count(host, TallyOf(host, handlings[..|handlings| - 1]), handlings[|handlings| - 1])
  }

  // ----- the whole pass -----

  /** What the mapping makes of the i-th eligible record. */
  type Transformer = (nat, map<string, Value>) -> Transformed

  function HandlingAt(transform: Transformer, faults: nat -> Fault, eligible: seq<SourceRecord>, i: nat): Handling
    requires i < |eligible|
  {
    Handle(eligible[i], transform(i, EnsureObject(eligible[i].raw)), faults(i))
  }

  function Handlings(transform: Transformer, faults: nat -> Fault, eligible: seq<SourceRecord>, n: nat)
    : (r: seq<Handling>)
    requires n <= |eligible|
    ensures |r| == n && forall i :: 0 <= i < n ==> r[i] == HandlingAt(transform, faults, eligible, i)
  {
    seq(n, i requires 0 <= i < n => HandlingAt(transform, faults, eligible, i))
  }

  /** The first record whose failure cannot be audited, which ends the run with an exception. */
  function FirstThrow(transform: Transformer, faults: nat -> Fault, eligible: seq<SourceRecord>, i: nat): (n: nat)
    requires i <= |eligible|
    ensures i <= n <= |eligible|
    decreases |eligible| - i
  {
    if i == |eligible| then i
    else if HandlingAt(transform, faults, eligible, i).Invalid? && faults(i) == FailureAuditThrows then i
    else FirstThrow(transform, faults, eligible, i + 1)
  }

  datatype Batch = Batch(records: seq<SourceRecord>, ignoreCursor: bool, faults: nat -> Fault, tail: TailFault)

  datatype Effect = Effect(rows: seq<Row>, cursorJson: Value, result: Result<Summary, RunError>)

  function EligibleOf(host: Host, incremental: bool, cursorJson: Value, batch: Batch)
    : (r: seq<SourceRecord>)
    ensures |r| <= |batch.records|
  {
    if incremental && !batch.ignoreCursor
    then Eligible(host, batch.records, NormalizeCursorState(host, cursorJson))
    else batch.records
  }

  /** The rows it adds, the cursor it leaves, and what it returns or throws. */
  function PassEffect(host: Host, incremental: bool, cursorJson: Value, transform: Transformer, batch: Batch): Effect {
    var eligible := EligibleOf(host, incremental, cursorJson, batch);
    var stop := FirstThrow(transform, batch.faults, eligible, 0);
    var tally := TallyOf(host, Handlings(transform, batch.faults, eligible, stop));
    if stop < |eligible| then Effect(tally.rows, cursorJson, Err(StoreUnavailable))
    else
      var (cursor, result) := Conclude(host, incremental, cursorJson, tally, |batch.records|, |eligible|, batch.tail);
      Effect(tally.rows, cursor, result)
  }

  /** The end of a pass: the cursor it leaves, and its summary. The cursor moves only if no record failed. */
  function Conclude(host: Host, incremental: bool, cursorJson: Value, tally: Tally, received: nat, eligible: nat,
                    tail: TailFault): (Value, Result<Summary, RunError>)
    requires eligible <= received
  {
    var summary := Summary(received, tally.created, tally.failed, tally.errors, received - eligible, false, None);
    if !incremental then (cursorJson, Ok(summary))
    else if tally.failed > 0 || tally.latest.None? then
      (cursorJson, if tail == CursorAuditThrows then Err(StoreUnavailable) else Ok(summary))
    else
      var json := CursorToJson(host, tally.latest.value);
      match tail
      case CursorUpdateThrows => (cursorJson, Err(StoreUnavailable))
      case CursorAuditThrows => (Obj(json), Err(StoreUnavailable))
      case NoTailFault => (Obj(json), Ok(summary.(cursorAdvanced := true, cursorValue := Some(json))))
  }

  class PipelineStore {
    var syncedRecords: seq<Row>
    var cursorJson: Value

    constructor (cursor: Value)
      ensures syncedRecords == [] && cursorJson == cursor
    {
      syncedRecords := [];
      cursorJson := cursor;
    }

    /** `processRunRecords` after the mapping is compiled. */
    method ProcessRunRecords(host: Host, incremental: bool, transform: Transformer, batch: Batch)
      returns (r: Result<Summary, RunError>)
      modifies this
      ensures var effect := PassEffect(host, incremental, old(cursorJson), transform, batch);
              && syncedRecords == old(syncedRecords) + effect.rows
              && cursorJson == effect.cursorJson
              && r == effect.result
    {
      var eligible := EligibleOf(host, incremental, cursorJson, batch);
      var tally :- ProcessEligible(host, transform, batch.faults, eligible);
      r := MoveCursor(host, incremental, tally, |batch.records|, |eligible|, batch.tail);
    }

    /** What follows the loop. */
    method MoveCursor(host: Host, incremental: bool, tally: Tally, received: nat, eligible: nat, tail: TailFault)
      returns (r: Result<Summary, RunError>)
      requires eligible <= received
      modifies this`cursorJson
      ensures (cursorJson, r) == Conclude(host, incremental, old(cursorJson), tally, received, eligible, tail)
    {
      var cursorValue: Option<map<string, Value>> := None;
      if incremental {
        if tally.failed == 0 && tally.latest.Some? {
          if tail == CursorUpdateThrows {
            return Err(StoreUnavailable);
          }
          cursorValue := Some(CursorToJson(host, tally.latest.value));
          cursorJson := Obj(cursorValue.value);
        }
        if tail == CursorAuditThrows {
          return Err(StoreUnavailable);
        }
      }
      return Ok(Summary(received, tally.created, tally.failed, tally.errors, received - eligible,
                        cursorValue.Some?, cursorValue));
    }

    /** The loop over the eligible records. */
    method ProcessEligible(host: Host, transform: Transformer, faults: nat -> Fault, eligible: seq<SourceRecord>)
      returns (r: Result<Tally, RunError>)
      modifies this`syncedRecords
      ensures var stop := FirstThrow(transform, faults, eligible, 0);
              var tally := TallyOf(host, Handlings(transform, faults, eligible, stop));
              && syncedRecords == old(syncedRecords) + tally.rows
              && r == if stop < |eligible| then Err(StoreUnavailable) else Ok(tally)
    {
      var tally := Tally([], 0, 0, 0, None);
      for i := 0 to |eligible|
        invariant FirstThrow(transform, faults, eligible, 0) == FirstThrow(transform, faults, eligible, i)
        invariant syncedRecords == old(syncedRecords) + tally.rows
        invariant tally == TallyOf(host, Handlings(transform, faults, eligible, i))
      {
        TallyStep(host, transform, faults, eligible, i);
        var transformed := transform(i, EnsureObject(eligible[i].raw));
        tally :- ProcessRecord(host, eligible[i], transformed, faults(i), tally);
      }
      return Ok(tally);
    }

    /** One pass of the loop: count, and store the row of a valid record. */
    method ProcessRecord(host: Host, record: SourceRecord, transformed: Transformed, fault: Fault, tally: Tally)
      returns (r: Result<Tally, RunError>)
      modifies this`syncedRecords
      ensures var handling := Handle(record, transformed, fault);
              if handling.Invalid? && fault == FailureAuditThrows
              then r == Err(StoreUnavailable) && syncedRecords == old(syncedRecords)
              else r == Ok(Count(host, tally, handling))
                   && syncedRecords == old(syncedRecords) + r.value.rows[|tally.rows|..]
    {
      var raw := EnsureObject(record.raw);
      var createdCount, failedCount, totalErrorCount := tally.created, tally.failed, tally.errors;
      totalErrorCount := totalErrorCount + |transformed.errors|;
      if transformed.errors != [] {
        if fault == FailureAuditThrows {
          return Err(StoreUnavailable);
        }
        return Ok(tally.(failed := failedCount + 1, errors := totalErrorCount));
      }
      if fault == CreateThrows {
        return Ok(tally.(failed := failedCount + 1, errors := totalErrorCount + 1));
      }
      var row := Row(record.externalId, raw, transformed.normalized);
      syncedRecords := syncedRecords + [row];
      var maxCursor := PickLatestCursor(tally.latest, ExtractCursorCandidate(host, raw));
      createdCount := createdCount + 1;
      if fault == AuditThrows {
        failedCount := failedCount + 1;
        totalErrorCount := totalErrorCount + 1;
      }
      return Ok(Tally(tally.rows + [row], createdCount, failedCount, totalErrorCount, maxCursor));
    }
  }

  lemma TallyStep(host: Host, transform: Transformer, faults: nat -> Fault, eligible: seq<SourceRecord>, i: nat)
    requires i < |eligible|
    ensures TallyOf(host, Handlings(transform, faults, eligible, i + 1))
         == Count(host, TallyOf(host, Handlings(transform, faults, eligible, i)),
                  HandlingAt(transform, faults, eligible, i))
  {
    var hs := Handlings(transform, faults, eligible, i + 1);
    assert hs[..i] == Handlings(transform, faults, eligible, i);
  }

  // ----- conservation -----

  function UnauditedIn(handlings: seq<Handling>): nat {
    if handlings == [] then 0
    else UnauditedIn(handlings[..|handlings| - 1]) + if handlings[|handlings| - 1].StoredUnaudited? then 1 else 0
  }

  lemma {:induction false} TallyConserves(host: Host, handlings: seq<Handling>)
    requires forall i :: 0 <= i < |handlings| && handlings[i].Invalid? ==> handlings[i].errors > 0
    ensures var t := TallyOf(host, handlings);
            && |t.rows| == t.created && t.errors >= t.failed
            && t.created + t.failed == |handlings| + UnauditedIn(handlings)
  {
    if handlings == [] {
    } else {
      TallyConserves(host, handlings[..|handlings| - 1]);
    }
  }

  lemma {:induction false} UnauditedNone(handlings: seq<Handling>)
    ensures UnauditedIn(handlings) == 0 <==> forall i :: 0 <= i < |handlings| ==> !handlings[i].StoredUnaudited?
  {
    if handlings == [] {
    } else {
      var n := |handlings| - 1;
      UnauditedNone(handlings[..n]);
      assert forall i :: 0 <= i < n ==> handlings[..n][i] == handlings[i];
    }
  }

  lemma ConcludeCounts(host: Host, incremental: bool, cursorJson: Value, tally: Tally, received: nat, eligible: nat,
                       tail: TailFault)
    requires eligible <= received && Conclude(host, incremental, cursorJson, tally, received, eligible, tail).1.Ok?
    ensures var s := Conclude(host, incremental, cursorJson, tally, received, eligible, tail).1.value;
            && s.recordsReceived == received && s.recordsProcessed == tally.created
            && s.recordsFailed == tally.failed && s.errorCount == tally.errors
            && s.skippedByCursor == received - eligible
  {
  }

  lemma SummaryCounts(host: Host, incremental: bool, cursorJson: Value, transform: Transformer, batch: Batch)
    requires PassEffect(host, incremental, cursorJson, transform, batch).result.Ok?
    ensures var e := PassEffect(host, incremental, cursorJson, transform, batch);
            var s := e.result.value;
            var eligible := EligibleOf(host, incremental, cursorJson, batch);
            var tally := TallyOf(host, Handlings(transform, batch.faults, eligible, |eligible|));
            && e.rows == tally.rows && s.recordsReceived == |batch.records|
            && s.recordsProcessed == tally.created && s.recordsFailed == tally.failed
            && s.errorCount == tally.errors && s.skippedByCursor == |batch.records| - |eligible|
  {
    var eligible := EligibleOf(host, incremental, cursorJson, batch);
    var tally := TallyOf(host, Handlings(transform, batch.faults, eligible, |eligible|));
    assert FirstThrow(transform, batch.faults, eligible, 0) == |eligible|;
    ConcludeCounts(host, incremental, cursorJson, tally, |batch.records|, |eligible|, batch.tail);
  }

  /** When a pass returns, the rows it added are exactly the records it counts as processed, and processed,
      failed and skipped records add up to the received ones plus those stored without their audits; so
      they add up exactly iff every stored record was audited. */
  lemma RecordConservation(host: Host, incremental: bool, cursorJson: Value, transform: Transformer, batch: Batch)
    requires PassEffect(host, incremental, cursorJson, transform, batch).result.Ok?
    ensures var e := PassEffect(host, incremental, cursorJson, transform, batch);
            var s := e.result.value;
            var eligible := EligibleOf(host, incremental, cursorJson, batch);
            var handlings := Handlings(transform, batch.faults, eligible, |eligible|);
            && s.recordsProcessed == |e.rows| && s.errorCount >= s.recordsFailed
            && s.recordsReceived == |batch.records|
            && s.recordsProcessed + s.recordsFailed + s.skippedByCursor == s.recordsReceived + UnauditedIn(handlings)
            && (s.recordsProcessed + s.recordsFailed + s.skippedByCursor == s.recordsReceived <==>
                  forall i :: 0 <= i < |handlings| ==> !handlings[i].StoredUnaudited?)
  {
    var eligible := EligibleOf(host, incremental, cursorJson, batch);
    var handlings := Handlings(transform, batch.faults, eligible, |eligible|);
    SummaryCounts(host, incremental, cursorJson, transform, batch);
    TallyConserves(host, handlings);
    UnauditedNone(handlings);
  }
}
