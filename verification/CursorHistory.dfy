/** The incremental cursor over whole histories of sequential runs that do not ignore it. */
module CursorHistory {
  import opened Common
  import opened Json
  import opened Transformation
  import opened Cursors
  import opened RunRecords

  function CandidateOf(host: Host, raw: Value): Option<Cursor> {
    ExtractCursorCandidate(host, EnsureObject(raw))
  }

  predicate RecordCarries(host: Host, kind: Kind, record: SourceRecord) {
    CandidateOf(host, record.raw).Some? && Carries(kind, CandidateOf(host, record.raw).value)
  }

  predicate AllCarry(host: Host, kind: Kind, records: seq<SourceRecord>) {
    forall record :: record in records ==> RecordCarries(host, kind, record)
  }

  function RecordKey(host: Host, kind: Kind, record: SourceRecord): real
    requires RecordCarries(host, kind, record)
  {
    Key(kind, CandidateOf(host, record.raw).value)
  }

  predicate RowCarries(host: Host, kind: Kind, row: Row) {
    ExtractCursorCandidate(host, row.raw).Some? && Carries(kind, ExtractCursorCandidate(host, row.raw).value)
  }

  function RowKey(host: Host, kind: Kind, row: Row): real
    requires RowCarries(host, kind, row)
  {
    Key(kind, ExtractCursorCandidate(host, row.raw).value)
  }

  /** The cursor is missing, or of the kind. */
  predicate CursorOfKind(kind: Kind, cursor: Option<Cursor>) {
    cursor.Some? ==> Carries(kind, cursor.value)
  }

  /** The cursor is at least a key. */
  predicate Reaches(kind: Kind, cursor: Option<Cursor>, key: real) {
    cursor.Some? && Carries(kind, cursor.value) && key <= Key(kind, cursor.value)
  }

  // ----- the filter and the fold -----

  lemma {:induction false} EligibleMeaning(host: Host, records: seq<SourceRecord>, cursor: Option<Cursor>)
    ensures forall record :: record in Eligible(host, records, cursor) <==>
              record in records && ShouldProcessRecord(host, record, cursor)
  {
    if records == [] {
    } else {
      EligibleMeaning(host, records[..|records| - 1], cursor);
      assert records == records[..|records| - 1] + [records[|records| - 1]];
    }
  }

  /** Folding rows of one kind gives a cursor that reaches them all, and is one of theirs. */
  ghost predicate LatestOf(host: Host, kind: Kind, rows: seq<Row>, latest: Option<Cursor>) {
    && (latest.None? <==> rows == [])
    && (latest.Some? ==> !Empty(latest.value) && Carries(kind, latest.value))
    && (forall row :: row in rows ==> RowCarries(host, kind, row) && Reaches(kind, latest, RowKey(host, kind, row)))
    && (latest.Some? ==> exists row :: row in rows && RowCarries(host, kind, row)
                                       && RowKey(host, kind, row) == Key(kind, latest.value))
  }

  lemma LatestGrows(host: Host, kind: Kind, rows: seq<Row>, latest: Option<Cursor>, row: Row)
    requires LatestOf(host, kind, rows, latest) && RowCarries(host, kind, row)
    ensures LatestOf(host, kind, rows + [row], PickLatestCursor(latest, ExtractCursorCandidate(host, row.raw)))
  {
  }

  predicate Stores(h: Handling, row: Row) {
    (h.Stored? || h.StoredUnaudited?) && h.row == row
  }

  predicate RowsCarry(host: Host, kind: Kind, handlings: seq<Handling>) {
    forall i :: 0 <= i < |handlings| && (handlings[i].Stored? || handlings[i].StoredUnaudited?) ==>
      RowCarries(host, kind, handlings[i].row)
  }

  lemma {:induction false} TallyLatest(host: Host, kind: Kind, handlings: seq<Handling>)
    requires RowsCarry(host, kind, handlings)
    ensures var t := TallyOf(host, handlings); LatestOf(host, kind, t.rows, t.latest)
  {
    if handlings == [] {
    } else {
      var n := |handlings| - 1;
      TallyLatest(host, kind, handlings[..n]);
      var t := TallyOf(host, handlings[..n]);
      match handlings[n] {
        case Stored(row) => LatestGrows(host, kind, t.rows, t.latest, row);
        case StoredUnaudited(row) => LatestGrows(host, kind, t.rows, t.latest, row);
        case _ =>
      }
    }
  }

  /** Every row comes from a handled record. */
  lemma {:induction false} RowOrigin(host: Host, handlings: seq<Handling>, row: Row) returns (i: nat)
    requires row in TallyOf(host, handlings).rows
    ensures i < |handlings| && Stores(handlings[i], row)
  {
    var n := |handlings| - 1;
    if row in TallyOf(host, handlings[..n]).rows {
      i := RowOrigin(host, handlings[..n], row);
    } else {
      i := n;
    }
  }

  /** Without a failure, every handled record has its row. */
  lemma {:induction false} CleanStoresAll(host: Host, handlings: seq<Handling>, i: nat)
    requires TallyOf(host, handlings).failed == 0 && i < |handlings|
    ensures handlings[i].Stored? && handlings[i].row in TallyOf(host, handlings).rows
  {
    var n := |handlings| - 1;
    if i < n {
      CleanStoresAll(host, handlings[..n], i);
    }
  }

  // ----- one run -----

  predicate Keyed(host: Host, kind: Kind, batch: Batch) {
    !batch.ignoreCursor && AllCarry(host, kind, batch.records)
  }

  function StoredCursor(host: Host, cursorJson: Value): Option<Cursor> {
    NormalizeCursorState(host, cursorJson)
  }

  predicate StoredOfKind(host: Host, kind: Kind, cursorJson: Value) {
    CursorOfKind(kind, StoredCursor(host, cursorJson))
  }

  /** A key that the filter lets pass. */
  predicate Beyond(kind: Kind, cursor: Option<Cursor>, key: real)
    requires CursorOfKind(kind, cursor)
  {
    cursor.None? || key > Key(kind, cursor.value)
  }

  /** The filter lets pass exactly the records beyond the cursor. */
  lemma FilterByKey(host: Host, kind: Kind, batch: Batch, cursorJson: Value, record: SourceRecord)
    requires Keyed(host, kind, batch) && StoredOfKind(host, kind, cursorJson) && record in batch.records
    ensures record in EligibleOf(host, true, cursorJson, batch) <==>
            Beyond(kind, StoredCursor(host, cursorJson), RecordKey(host, kind, record))
  {
    EligibleMeaning(host, batch.records, StoredCursor(host, cursorJson));
    if StoredCursor(host, cursorJson).Some? {
      KindIsOrdered(kind, CandidateOf(host, record.raw).value, StoredCursor(host, cursorJson).value);
    }
  }

  lemma EligibleRecords(host: Host, batch: Batch, cursorJson: Value, record: SourceRecord)
    requires record in EligibleOf(host, true, cursorJson, batch)
    ensures record in batch.records
  {
    EligibleMeaning(host, batch.records, StoredCursor(host, cursorJson));
  }

  function HandlingsOf(host: Host, cursorJson: Value, transform: Transformer, batch: Batch): seq<Handling> {
    var eligible := EligibleOf(host, true, cursorJson, batch);
    Handlings(transform, batch.faults, eligible, FirstThrow(transform, batch.faults, eligible, 0))
  }

  lemma HandledRowsCarry(host: Host, kind: Kind, cursorJson: Value, transform: Transformer, batch: Batch)
    requires Keyed(host, kind, batch)
    ensures RowsCarry(host, kind, HandlingsOf(host, cursorJson, transform, batch))
  {
    var eligible := EligibleOf(host, true, cursorJson, batch);
    var handlings := HandlingsOf(host, cursorJson, transform, batch);
    forall i | 0 <= i < |handlings| && (handlings[i].Stored? || handlings[i].StoredUnaudited?)
      ensures RowCarries(host, kind, handlings[i].row)
    {
      assert handlings[i] == HandlingAt(transform, batch.faults, eligible, i);
      EligibleRecords(host, batch, cursorJson, eligible[i]);
      assert RecordCarries(host, kind, eligible[i]);
    }
  }

  /** Every row that a run adds is beyond the cursor it started from. */
  lemma RowsAreBeyond(host: Host, kind: Kind, cursorJson: Value, transform: Transformer, batch: Batch, row: Row)
    requires Keyed(host, kind, batch) && StoredOfKind(host, kind, cursorJson)
    requires row in PassEffect(host, true, cursorJson, transform, batch).rows
    ensures RowCarries(host, kind, row) && Beyond(kind, StoredCursor(host, cursorJson), RowKey(host, kind, row))
  {
    var eligible := EligibleOf(host, true, cursorJson, batch);
    var handlings := HandlingsOf(host, cursorJson, transform, batch);
    var i := RowOrigin(host, handlings, row);
    assert handlings[i] == HandlingAt(transform, batch.faults, eligible, i);
    EligibleRecords(host, batch, cursorJson, eligible[i]);
    assert RecordCarries(host, kind, eligible[i]);
    FilterByKey(host, kind, batch, cursorJson, eligible[i]);
  }

  predicate Succeeds(host: Host, cursorJson: Value, transform: Transformer, batch: Batch) {
    var r := PassEffect(host, true, cursorJson, transform, batch).result;
    r.Ok? && r.value.recordsFailed == 0
  }

  lemma ConcludedCursor(host: Host, cursorJson: Value, tally: Tally, received: nat, eligible: nat, tail: TailFault)
    requires eligible <= received
    ensures var (json, result) := Conclude(host, true, cursorJson, tally, received, eligible, tail);
            && (json == cursorJson ||
                (tally.latest.Some? && tally.failed == 0 && json == Obj(CursorToJson(host, tally.latest.value))))
            && (result.Ok? ==> result.value.recordsFailed == tally.failed)
            && (result.Ok? && tally.failed == 0 ==>
                  json == if tally.latest.Some? then Obj(CursorToJson(host, tally.latest.value)) else cursorJson)
  {
  }

  /** The cursor is the latest of the rows of a run without a failed record. */
  predicate MovedTo(host: Host, cursorJson: Value, transform: Transformer, batch: Batch, left: Value) {
    var handlings := HandlingsOf(host, cursorJson, transform, batch);
    var t := TallyOf(host, handlings);
    && t.failed == 0 && |handlings| == |EligibleOf(host, true, cursorJson, batch)|
    && (if t.latest.Some? then StoredCursor(host, left) == t.latest else left == cursorJson)
  }

  /** What a pass leaves as cursor: the old one, or the latest of its rows when no record failed. */
  lemma CursorLeft(host: Host, kind: Kind, cursorJson: Value, transform: Transformer, batch: Batch)
    requires host.Valid() && Keyed(host, kind, batch)
    ensures var e := PassEffect(host, true, cursorJson, transform, batch);
            var t := TallyOf(host, HandlingsOf(host, cursorJson, transform, batch));
            && e.rows == t.rows && LatestOf(host, kind, t.rows, t.latest)
            && (e.cursorJson == cursorJson ||
                (t.latest.Some? && MovedTo(host, cursorJson, transform, batch, e.cursorJson)))
            && (e.result.Ok? && e.result.value.recordsFailed > 0 ==> e.cursorJson == cursorJson)
            && (Succeeds(host, cursorJson, transform, batch) ==>
                  MovedTo(host, cursorJson, transform, batch, e.cursorJson))
  {
    HandledRowsCarry(host, kind, cursorJson, transform, batch);
    var handlings := HandlingsOf(host, cursorJson, transform, batch);
    TallyLatest(host, kind, handlings);
    var t := TallyOf(host, handlings);
    if t.latest.Some? {
      CursorRoundTrip(host, t.latest.value);
    }
    var eligible := EligibleOf(host, true, cursorJson, batch);
    ConcludedCursor(host, cursorJson, t, |batch.records|, |eligible|, batch.tail);
  }

  /** Every write of the cursor moves it strictly forward, and a run with a failed record never writes it,
      whether it returns or throws. */
  lemma CursorOnlyAdvances(host: Host, kind: Kind, cursorJson: Value, transform: Transformer, batch: Batch)
    requires host.Valid() && Keyed(host, kind, batch) && StoredOfKind(host, kind, cursorJson)
    ensures var e := PassEffect(host, true, cursorJson, transform, batch);
            && StoredOfKind(host, kind, e.cursorJson)
            && (e.cursorJson == cursorJson ||
                (StoredCursor(host, e.cursorJson).Some? &&
                 Beyond(kind, StoredCursor(host, cursorJson), Key(kind, StoredCursor(host, e.cursorJson).value))))
            && (e.result.Ok? && e.result.value.recordsFailed > 0 ==> e.cursorJson == cursorJson)
            && (TallyOf(host, HandlingsOf(host, cursorJson, transform, batch)).failed > 0 ==>
                  e.cursorJson == cursorJson)
  {
    CursorLeft(host, kind, cursorJson, transform, batch);
    var e := PassEffect(host, true, cursorJson, transform, batch);
    var t := TallyOf(host, HandlingsOf(host, cursorJson, transform, batch));
    if e.cursorJson != cursorJson {
      var row :| row in t.rows && RowCarries(host, kind, row) && RowKey(host, kind, row) == Key(kind, t.latest.value);
      RowsAreBeyond(host, kind, cursorJson, transform, batch, row);
    }
  }

  /** After a successful run the cursor reaches every record of the batch, skipped ones included. */
  lemma SuccessReachesAll(host: Host, kind: Kind, cursorJson: Value, transform: Transformer, batch: Batch,
                          record: SourceRecord)
    requires host.Valid() && Keyed(host, kind, batch) && StoredOfKind(host, kind, cursorJson)
    requires Succeeds(host, cursorJson, transform, batch) && record in batch.records
    ensures Reaches(kind, StoredCursor(host, PassEffect(host, true, cursorJson, transform, batch).cursorJson),
                    RecordKey(host, kind, record))
  {
    CursorLeft(host, kind, cursorJson, transform, batch);
    CursorOnlyAdvances(host, kind, cursorJson, transform, batch);
    FilterByKey(host, kind, batch, cursorJson, record);
    var eligible := EligibleOf(host, true, cursorJson, batch);
    if record in eligible {
      var i :| 0 <= i < |eligible| && eligible[i] == record;
      var handlings := HandlingsOf(host, cursorJson, transform, batch);
      CleanStoresAll(host, handlings, i);
      assert handlings[i] == HandlingAt(transform, batch.faults, eligible, i);
      var row := handlings[i].row;
      assert RowCarries(host, kind, row) && RowKey(host, kind, row) == RecordKey(host, kind, record);
    }
  }

  /** Replaying a batch after its successful run finds no eligible record, so it persists nothing and
      leaves the cursor alone, whatever fails this time. */
  lemma ReplayPersistsNothing(host: Host, kind: Kind, cursorJson: Value, transform: Transformer, batch: Batch,
                              transform': Transformer, replay: Batch)
    requires host.Valid() && Keyed(host, kind, batch) && StoredOfKind(host, kind, cursorJson)
    requires Succeeds(host, cursorJson, transform, batch)
    requires replay.records == batch.records && !replay.ignoreCursor
    ensures var after := PassEffect(host, true, cursorJson, transform, batch).cursorJson;
            var e := PassEffect(host, true, after, transform', replay);
            && EligibleOf(host, true, after, replay) == []
            && e.rows == [] && e.cursorJson == after
  {
    var after := PassEffect(host, true, cursorJson, transform, batch).cursorJson;
    CursorOnlyAdvances(host, kind, cursorJson, transform, batch);
    var eligible := EligibleOf(host, true, after, replay);
    if eligible != [] {
      var record := eligible[0];
      assert record in eligible;
      EligibleRecords(host, replay, after, record);
      SuccessReachesAll(host, kind, cursorJson, transform, batch, record);
      FilterByKey(host, kind, replay, after, record);
    }
  }

  // ----- whole histories -----

  datatype History = Created(cursorJson: Value) | Ran(past: History, transform: Transformer, batch: Batch)

  function CursorAfter(host: Host, h: History): Value {
    match h
    case Created(cursorJson) => cursorJson
    case Ran(past, transform, batch) => PassEffect(host, true, CursorAfter(host, past), transform, batch).cursorJson
  }

  predicate HistoryKeyed(host: Host, kind: Kind, h: History) {
    match h
    case Created(cursorJson) => StoredOfKind(host, kind, cursorJson)
    case Ran(past, _, batch) => HistoryKeyed(host, kind, past) && Keyed(host, kind, batch)
  }

  /** The rows that the latest run of a history added. */
  function RowsOf(host: Host, h: History): seq<Row>
    requires h.Ran?
  {
    PassEffect(host, true, CursorAfter(host, h.past), h.transform, h.batch).rows
  }

  predicate LastSucceeded(host: Host, h: History) {
    h.Ran? && Succeeds(host, CursorAfter(host, h.past), h.transform, h.batch)
  }

  ghost predicate Extends(h: History, earlier: History) {
    h == earlier || (h.Ran? && Extends(h.past, earlier))
  }

  lemma {:induction false} CursorStaysOfKind(host: Host, kind: Kind, h: History)
    requires host.Valid() && HistoryKeyed(host, kind, h)
    ensures StoredOfKind(host, kind, CursorAfter(host, h))
  {
    if h.Created? {
    } else {
      CursorStaysOfKind(host, kind, h.past);
      CursorOnlyAdvances(host, kind, CursorAfter(host, h.past), h.transform, h.batch);
    }
  }

  /** What the cursor once reached, it reaches for the rest of the history. */
  lemma {:induction false} CursorMonotone(host: Host, kind: Kind, h: History, earlier: History, key: real)
    requires host.Valid() && HistoryKeyed(host, kind, h) && Extends(h, earlier)
    requires Reaches(kind, StoredCursor(host, CursorAfter(host, earlier)), key)
    ensures Reaches(kind, StoredCursor(host, CursorAfter(host, h)), key)
  {
    if h == earlier {
    } else {
      CursorMonotone(host, kind, h.past, earlier, key);
      CursorStaysOfKind(host, kind, h.past);
      CursorOnlyAdvances(host, kind, CursorAfter(host, h.past), h.transform, h.batch);
    }
  }

  lemma {:induction false} EarlierKeyed(host: Host, kind: Kind, h: History, earlier: History)
    requires HistoryKeyed(host, kind, h) && Extends(h, earlier)
    ensures HistoryKeyed(host, kind, earlier)
  {
    if h == earlier {
    } else {
      EarlierKeyed(host, kind, h.past, earlier);
    }
  }

  /** Once a run has succeeded, no later run of the history persists a record that does not lie beyond
      everything in that run's batch. */
  lemma NothingPersistedAgain(host: Host, kind: Kind, h: History, earlier: History, record: SourceRecord, row: Row)
    requires host.Valid() && HistoryKeyed(host, kind, h) && h.Ran? && Extends(h.past, earlier)
    requires LastSucceeded(host, earlier) && record in earlier.batch.records && row in RowsOf(host, h)
    ensures RowCarries(host, kind, row) && RecordCarries(host, kind, record)
    ensures RowKey(host, kind, row) > RecordKey(host, kind, record)
  {
    EarlierKeyed(host, kind, h.past, earlier);
    CursorStaysOfKind(host, kind, earlier.past);
    SuccessReachesAll(host, kind, CursorAfter(host, earlier.past), earlier.transform, earlier.batch, record);
    CursorMonotone(host, kind, h.past, earlier, RecordKey(host, kind, record));
    CursorStaysOfKind(host, kind, h.past);
    RowsAreBeyond(host, kind, CursorAfter(host, h.past), h.transform, h.batch, row);
  }

  // ----- any records, any cursor: exactly when the cursor moves, and when it keeps its key -----

  /** The latest of the cursors that records carry. */
  function Latest(host: Host, records: seq<SourceRecord>): Option<Cursor> {
    if records == [] then None
    else PickLatestCursor(Latest(host, records[..|records| - 1]), CandidateOf(host, records[|records| - 1].raw))
  }

  lemma {:induction false} LatestIsOne(host: Host, records: seq<SourceRecord>)
    ensures var latest := Latest(host, records);
            latest.Some? ==> exists record :: record in records && CandidateOf(host, record.raw) == latest
  {
    if records == [] {
    } else {
      LatestIsOne(host, records[..|records| - 1]);
      assert records[|records| - 1] in records;
    }
  }

  /** Every record is accepted and stored, audits included. */
  predicate AllStored(transform: Transformer, faults: nat -> Fault, records: seq<SourceRecord>) {
    forall i :: 0 <= i < |records| ==> HandlingAt(transform, faults, records, i).Stored?
  }

  lemma {:induction false} StoredTally(host: Host, transform: Transformer, faults: nat -> Fault,
                                       records: seq<SourceRecord>, n: nat)
    requires AllStored(transform, faults, records) && n <= |records|
    ensures var t := TallyOf(host, Handlings(transform, faults, records, n));
            t.failed == 0 && t.latest == Latest(host, records[..n])
  {
    if n == 0 {
    } else {
      StoredTally(host, transform, faults, records, n - 1);
      TallyStep(host, transform, faults, records, n - 1);
      assert records[..n][..n - 1] == records[..n - 1];
    }
  }

  lemma {:induction false} StoredNeverStops(transform: Transformer, faults: nat -> Fault, records: seq<SourceRecord>,
                                            i: nat)
    requires AllStored(transform, faults, records) && i <= |records|
    ensures FirstThrow(transform, faults, records, i) == |records|
    decreases |records| - i
  {
    if i == |records| {
    } else {
      StoredNeverStops(transform, faults, records, i + 1);
    }
  }

  /** The records that the run handles are all stored, they carry a cursor, and its update does not throw. */
  predicate Moves(host: Host, cursorJson: Value, transform: Transformer, batch: Batch) {
    var eligible := EligibleOf(host, true, cursorJson, batch);
    AllStored(transform, batch.faults, eligible) && Latest(host, eligible).Some? && batch.tail != CursorUpdateThrows
  }

  /** What a run leaves as cursor, whatever the records carry, whether it returns or throws. */
  lemma CursorExactly(host: Host, cursorJson: Value, transform: Transformer, batch: Batch)
    ensures PassEffect(host, true, cursorJson, transform, batch).cursorJson ==
            if Moves(host, cursorJson, transform, batch)
            then Obj(CursorToJson(host, Latest(host, EligibleOf(host, true, cursorJson, batch)).value)) else cursorJson
  {
    var eligible := EligibleOf(host, true, cursorJson, batch);
    var stop := FirstThrow(transform, batch.faults, eligible, 0);
    var handlings := Handlings(transform, batch.faults, eligible, stop);
    if AllStored(transform, batch.faults, eligible) {
      StoredNeverStops(transform, batch.faults, eligible, 0);
      StoredTally(host, transform, batch.faults, eligible, |eligible|);
      assert eligible[..|eligible|] == eligible;
    } else if stop == |eligible| && TallyOf(host, handlings).failed == 0 {
      forall i | 0 <= i < |eligible| ensures HandlingAt(transform, batch.faults, eligible, i).Stored? {
        CleanStoresAll(host, handlings, i);
      }
    }
  }

  lemma NotNewerThanItself(c: Cursor)
    requires !Empty(c)
    ensures !IsCandidateNewer(c, c)
  {
  }

  /** The filter never lets a record pass whose own cursor is the stored one. */
  lemma EligibleIsNews(host: Host, cursorJson: Value, batch: Batch)
    requires !batch.ignoreCursor && Latest(host, EligibleOf(host, true, cursorJson, batch)).Some?
    ensures Latest(host, EligibleOf(host, true, cursorJson, batch)) != StoredCursor(host, cursorJson)
    ensures StoredCursor(host, cursorJson).Some? ==>
              IsCandidateNewer(Latest(host, EligibleOf(host, true, cursorJson, batch)).value,
                               StoredCursor(host, cursorJson).value)
    ensures !Empty(Latest(host, EligibleOf(host, true, cursorJson, batch)).value)
  {
    var eligible := EligibleOf(host, true, cursorJson, batch);
    LatestIsOne(host, eligible);
    var record :| record in eligible && CandidateOf(host, record.raw) == Latest(host, eligible);
    EligibleMeaning(host, batch.records, StoredCursor(host, cursorJson));
    NotNewerThanItself(Latest(host, eligible).value);
  }

  lemma NewsIsWritten(host: Host, cursorJson: Value, batch: Batch)
    requires host.Valid() && !batch.ignoreCursor && Latest(host, EligibleOf(host, true, cursorJson, batch)).Some?
    ensures Obj(CursorToJson(host, Latest(host, EligibleOf(host, true, cursorJson, batch)).value)) != cursorJson
  {
    EligibleIsNews(host, cursorJson, batch);
    CursorRoundTrip(host, Latest(host, EligibleOf(host, true, cursorJson, batch)).value);
  }

  lemma StoredPassThrows(host: Host, cursorJson: Value, transform: Transformer, batch: Batch)
    requires var eligible := EligibleOf(host, true, cursorJson, batch);
             AllStored(transform, batch.faults, eligible) && Latest(host, eligible).Some?
    ensures PassEffect(host, true, cursorJson, transform, batch).result.Err? <==> batch.tail != NoTailFault
  {
    var eligible := EligibleOf(host, true, cursorJson, batch);
    StoredNeverStops(transform, batch.faults, eligible, 0);
    StoredTally(host, transform, batch.faults, eligible, |eligible|);
    assert eligible[..|eligible|] == eligible;
  }

  /** A pass changes the stored cursor iff it stores all it handles, that carries a cursor, and the update of the
      cursor does not throw; so a pass that throws has changed it iff the throw is that of its last audit. */
  lemma MovesIff(host: Host, cursorJson: Value, transform: Transformer, batch: Batch)
    requires host.Valid() && !batch.ignoreCursor
    ensures var e := PassEffect(host, true, cursorJson, transform, batch);
            var eligible := EligibleOf(host, true, cursorJson, batch);
            && (e.cursorJson != cursorJson <==> Moves(host, cursorJson, transform, batch))
            && (e.result.Err? ==>
                  (e.cursorJson != cursorJson <==>
                     batch.tail == CursorAuditThrows && AllStored(transform, batch.faults, eligible)
                     && Latest(host, eligible).Some?))
  {
    CursorExactly(host, cursorJson, transform, batch);
    if Moves(host, cursorJson, transform, batch) {
      NewsIsWritten(host, cursorJson, batch);
      StoredPassThrows(host, cursorJson, transform, batch);
    }
  }

  // ----- exactly when skipped records stay skipped -----

  /** No record that the first cursor skips is let pass by the second. */
  ghost predicate StillSkips(host: Host, before: Option<Cursor>, after: Option<Cursor>) {
    forall record: SourceRecord ::
      !ShouldProcessRecord(host, record, before) ==> !ShouldProcessRecord(host, record, after)
  }

  /** The new cursor has a sequence iff the old one has; and if the old one has a time beside it, so has the new
      one, and no earlier time. */
  predicate SameSort(stored: Cursor, moved: Cursor) {
    && (stored.sequence.Some? <==> moved.sequence.Some?)
    && (stored.sequence.Some? && stored.updatedAt.Some? ==>
          moved.updatedAt.Some? && moved.updatedAt.value >= stored.updatedAt.value)
  }

  /** A record that carries a cursor. */
  function Marked(host: Host, c: Cursor): SourceRecord {
    SourceRecord(None, Obj(CursorToJson(host, c)))
  }

  lemma MarkedCarries(host: Host, c: Cursor)
    requires host.Valid() && !Empty(c)
    ensures CandidateOf(host, Marked(host, c).raw) == Some(c)
  {
    CursorRoundTrip(host, c);
  }

  /** What two cursors of different sorts disagree on: the first skips it, the second lets it pass. */
  function Witness(stored: Cursor, moved: Cursor): Cursor {
    if stored.sequence.Some? && moved.sequence.None? then Cursor(stored.sequence, None)
    else if stored.sequence.None? && moved.sequence.Some? then
      Cursor(Some(moved.sequence.value + 1.0), stored.updatedAt)
    else Cursor(None, stored.updatedAt)
  }

  lemma WitnessPasses(stored: Cursor, moved: Cursor)
    requires !Empty(stored) && !SameSort(stored, moved)
    ensures var c := Witness(stored, moved);
            !Empty(c) && !IsCandidateNewer(c, stored) && IsCandidateNewer(c, moved)
  {
  }

  lemma SameSortSkips(c: Cursor, stored: Cursor, moved: Cursor)
    requires SameSort(stored, moved) && IsCandidateNewer(moved, stored)
    requires !Empty(stored) && !Empty(moved) && !IsCandidateNewer(c, stored)
    ensures !IsCandidateNewer(c, moved)
  {
  }

  /** A newer cursor still skips what the old one does iff it is of the same sort. */
  lemma StillSkipsIff(host: Host, stored: Cursor, moved: Cursor)
    requires host.Valid() && !Empty(stored) && !Empty(moved) && IsCandidateNewer(moved, stored)
    ensures StillSkips(host, Some(stored), Some(moved)) <==> SameSort(stored, moved)
  {
    if SameSort(stored, moved) {
      forall record: SourceRecord | !ShouldProcessRecord(host, record, Some(stored))
        ensures !ShouldProcessRecord(host, record, Some(moved))
      {
        SameSortSkips(CandidateOf(host, record.raw).value, stored, moved);
      }
    } else {
      var c := Witness(stored, moved);
      WitnessPasses(stored, moved);
      MarkedCarries(host, c);
      assert !ShouldProcessRecord(host, Marked(host, c), Some(stored));
    }
  }

  /** After any run, whatever the records carry, the skipped records stay skipped iff there was no cursor, the run
      did not move it, or the latest of the eligible cursors is of the same sort; after a successful one, iff
      there was none, no eligible record carries one, or the latest is of the same sort. */
  lemma SkipsAfterRunIff(host: Host, cursorJson: Value, transform: Transformer, batch: Batch)
    requires host.Valid() && !batch.ignoreCursor
    ensures var stored := StoredCursor(host, cursorJson);
            var latest := Latest(host, EligibleOf(host, true, cursorJson, batch));
            var left := StoredCursor(host, PassEffect(host, true, cursorJson, transform, batch).cursorJson);
            && (StillSkips(host, stored, left) <==>
                  stored.None? || !Moves(host, cursorJson, transform, batch) || SameSort(stored.value, latest.value))
            && (Succeeds(host, cursorJson, transform, batch) ==>
                  (StillSkips(host, stored, left) <==>
                     stored.None? || latest.None? || SameSort(stored.value, latest.value)))
  {
    CursorExactly(host, cursorJson, transform, batch);
    var stored, latest := StoredCursor(host, cursorJson), Latest(host, EligibleOf(host, true, cursorJson, batch));
    if latest.Some? {
      EligibleIsNews(host, cursorJson, batch);
      CursorRoundTrip(host, latest.value);
      if stored.Some? {
        StillSkipsIff(host, stored.value, latest.value);
      }
    }
    if Succeeds(host, cursorJson, transform, batch) {
      SuccessStoresAll(host, cursorJson, transform, batch);
    }
  }

  /** Every run since `earlier` heeds the cursor, and leaves it or moves it to one of the same sort. */
  ghost predicate KeepsSort(host: Host, h: History, earlier: History) {
    h == earlier ||
    (h.Ran? && KeepsSort(host, h.past, earlier) && !h.batch.ignoreCursor &&
     var cursorJson := CursorAfter(host, h.past);
     var stored := StoredCursor(host, cursorJson);
     (stored.Some? && Moves(host, cursorJson, h.transform, h.batch) ==>
        SameSort(stored.value, Latest(host, EligibleOf(host, true, cursorJson, h.batch)).value)))
  }

  /** Then what was skipped once is skipped for the rest of the history. */
  lemma {:induction false} SkippedForGood(host: Host, h: History, earlier: History)
    requires host.Valid() && KeepsSort(host, h, earlier)
    ensures StillSkips(host, StoredCursor(host, CursorAfter(host, earlier)), StoredCursor(host, CursorAfter(host, h)))
  {
    if h == earlier {
    } else {
      SkippedForGood(host, h.past, earlier);
      SkipsAfterRunIff(host, CursorAfter(host, h.past), h.transform, h.batch);
    }
  }

  lemma SuccessStoresAll(host: Host, cursorJson: Value, transform: Transformer, batch: Batch)
    requires Succeeds(host, cursorJson, transform, batch)
    ensures AllStored(transform, batch.faults, EligibleOf(host, true, cursorJson, batch))
    ensures Latest(host, EligibleOf(host, true, cursorJson, batch)).Some? ==> batch.tail != CursorUpdateThrows
  {
    SuccessIsClean(host, cursorJson, transform, batch);
    CleanIsStored(host, transform, batch.faults, EligibleOf(host, true, cursorJson, batch));
  }

  lemma SuccessIsClean(host: Host, cursorJson: Value, transform: Transformer, batch: Batch)
    requires Succeeds(host, cursorJson, transform, batch)
    ensures var eligible := EligibleOf(host, true, cursorJson, batch);
            var t := TallyOf(host, Handlings(transform, batch.faults, eligible, |eligible|));
            t.failed == 0 && (t.latest.Some? ==> batch.tail != CursorUpdateThrows)
  {
  }

  lemma CleanIsStored(host: Host, transform: Transformer, faults: nat -> Fault, records: seq<SourceRecord>)
    requires TallyOf(host, Handlings(transform, faults, records, |records|)).failed == 0
    ensures AllStored(transform, faults, records)
    ensures TallyOf(host, Handlings(transform, faults, records, |records|)).latest == Latest(host, records)
  {
    var handlings := Handlings(transform, faults, records, |records|);
    forall i | 0 <= i < |records| ensures HandlingAt(transform, faults, records, i).Stored? {
      CleanStoresAll(host, handlings, i);
    }
    StoredTally(host, transform, faults, records, |records|);
    assert records[..|records|] == records;
  }

  // ----- inputs for each -----

  /** A mapping without fields accepts every record. */
  function AcceptAll(): Transformer {
    (i, raw) => Transformed(map[], [])
  }

  function OneRecord(record: SourceRecord, tail: TailFault): Batch {
    Batch([record], false, i => NoFault, tail)
  }

  lemma OneRecordPass(host: Host, cursorJson: Value, record: SourceRecord, tail: TailFault)
    requires ShouldProcessRecord(host, record, StoredCursor(host, cursorJson)) && CandidateOf(host, record.raw).Some?
    ensures var e := PassEffect(host, true, cursorJson, AcceptAll(), OneRecord(record, tail));
            var json := Obj(CursorToJson(host, CandidateOf(host, record.raw).value));
            && e.rows == [Row(record.externalId, EnsureObject(record.raw), map[])]
            && (tail == NoTailFault ==> e.cursorJson == json && e.result.Ok? && e.result.value.recordsFailed == 0)
            && (tail == CursorAuditThrows ==> e.cursorJson == json && e.result.Err?)
  {
    var batch := OneRecord(record, tail);
    assert batch.records[..0] == [];
    var eligible := EligibleOf(host, true, cursorJson, batch);
    assert eligible == [record];
    var handlings := Handlings(AcceptAll(), batch.faults, eligible, 1);
    assert FirstThrow(AcceptAll(), batch.faults, eligible, 0) == 1;
    assert handlings == [Handling.Stored(Row(record.externalId, EnsureObject(record.raw), map[]))];
    assert handlings[..0] == [];
    var row := Row(record.externalId, EnsureObject(record.raw), map[]);
    assert TallyOf(host, handlings) == Count(host, TallyOf(host, handlings[..0]), Handling.Stored(row));
    assert TallyOf(host, handlings) == Tally([row], 1, 0, 0, CandidateOf(host, record.raw));
  }

  /** A successful run over one record lets pass another one that was skipped before. */
  ghost predicate Forgets(host: Host, stored: Cursor, seen: Cursor, skipped: Cursor) {
    var before, batch := Obj(CursorToJson(host, stored)), OneRecord(Marked(host, seen), NoTailFault);
    var left := PassEffect(host, true, before, AcceptAll(), batch).cursorJson;
    && Succeeds(host, before, AcceptAll(), batch)
    && !ShouldProcessRecord(host, Marked(host, skipped), StoredCursor(host, before))
    && ShouldProcessRecord(host, Marked(host, skipped), StoredCursor(host, left))
  }

  lemma ForgetsByOrder(host: Host, stored: Cursor, seen: Cursor, skipped: Cursor)
    requires host.Valid() && !Empty(stored) && !Empty(seen) && !Empty(skipped)
    requires IsCandidateNewer(seen, stored) && !IsCandidateNewer(skipped, stored) && IsCandidateNewer(skipped, seen)
    ensures Forgets(host, stored, seen, skipped)
  {
    CursorRoundTrip(host, stored);
    CursorRoundTrip(host, seen);
    MarkedCarries(host, seen);
    MarkedCarries(host, skipped);
    OneRecordPass(host, Obj(CursorToJson(host, stored)), Marked(host, seen), NoTailFault);
  }

  /** Mixed kinds lose progress: a dated record makes a sequence forgotten; a record with both makes a time
      forgotten, whether the cursor has a sequence beside it or not. */
  lemma MixedKindsForget(host: Host)
    requires host.Valid()
    ensures Forgets(host, Cursor(Some(5.0), None), Cursor(None, Some(0)), Cursor(Some(3.0), None))
    ensures Forgets(host, Cursor(None, Some(100)), Cursor(Some(6.0), Some(150)), Cursor(Some(7.0), Some(50)))
    ensures Forgets(host, Cursor(Some(5.0), Some(100)), Cursor(Some(6.0), Some(50)), Cursor(None, Some(70)))
  {
    ForgetsByOrder(host, Cursor(Some(5.0), None), Cursor(None, Some(0)), Cursor(Some(3.0), None));
    ForgetsByOrder(host, Cursor(None, Some(100)), Cursor(Some(6.0), Some(150)), Cursor(Some(7.0), Some(50)));
    ForgetsByOrder(host, Cursor(Some(5.0), Some(100)), Cursor(Some(6.0), Some(50)), Cursor(None, Some(70)));
  }

  /** A pass can throw after it has moved the cursor: only failed records hold it back. */
  lemma LateThrowMovesCursor(host: Host)
    requires host.Valid()
    ensures var first := Cursor(Some(1.0), None);
            var e := PassEffect(host, true, Null, AcceptAll(), OneRecord(Marked(host, first), CursorAuditThrows));
            && e.result.Err? && StoredCursor(host, Null).None?
            && StoredCursor(host, e.cursorJson) == Some(first)
  {
    var first := Cursor(Some(1.0), None);
    MarkedCarries(host, first);
    OneRecordPass(host, Null, Marked(host, first), CursorAuditThrows);
    CursorRoundTrip(host, first);
  }
}
