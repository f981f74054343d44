/** Which records of a batch a pass handles, told from the properties of the record and of the stored cursor. */
module CursorFilter {
  import opened Common
  import opened Json
  import opened Transformation
  import opened Cursors
  import opened RunRecords

  // ----- what a record and a stored cursor carry -----

  /** A finite number, or a text that is one. */
  predicate RecordSequence(host: Host, raw: map<string, Value>, sequence: real) {
    match Prop(raw, "sequence")
    case Num(n) => n == Finite(sequence)
    case Str(s) => host.toNumber(s) == Finite(sequence)
    case _ => false
  }

  /** The instant of a text or of a number. */
  predicate RecordTime(host: Host, raw: map<string, Value>, time: int) {
    match Prop(raw, "updatedAt")
    case Str(s) => host.parseDate(s) == Some(time)
    case Num(n) => host.dateOfNumber(n) == Some(time)
    case _ => false
  }

  predicate CursorSequence(stored: Value, sequence: real) {
    stored.Obj? && Prop(stored.props, "sequence") == Num(Finite(sequence))
  }

  predicate CursorTime(host: Host, stored: Value, time: int) {
    stored.Obj? && Prop(stored.props, "updatedAt").Str? &&
    host.parseDate(Prop(stored.props, "updatedAt").s) == Some(time)
  }

  /** Sequences decide if both have one, times decide if both have one otherwise; if neither pair can be compared,
      as when one of them carries nothing, the record passes. */
  ghost predicate Passes(host: Host, stored: Value, record: SourceRecord) {
    var raw := EnsureObject(record.raw);
    if exists r, s :: RecordSequence(host, raw, r) && CursorSequence(stored, s) then
      exists r, s :: RecordSequence(host, raw, r) && CursorSequence(stored, s) && r > s
    else if exists t, u :: RecordTime(host, raw, t) && CursorTime(host, stored, u) then
      exists t, u :: RecordTime(host, raw, t) && CursorTime(host, stored, u) && t > u
    else true
  }

  ghost predicate CarriesNothing(host: Host, record: SourceRecord) {
    var raw := EnsureObject(record.raw);
    (forall r :: !RecordSequence(host, raw, r)) && forall t :: !RecordTime(host, raw, t)
  }

  function SequenceOf(c: Option<Cursor>): Option<real> {
    if c.Some? then c.value.sequence else None
  }

  function TimeOf(c: Option<Cursor>): Option<int> {
    if c.Some? then c.value.updatedAt else None
  }

  lemma RecordCarries(host: Host, raw: map<string, Value>)
    ensures forall r :: RecordSequence(host, raw, r) <==> SequenceOf(ExtractCursorCandidate(host, raw)) == Some(r)
    ensures forall t :: RecordTime(host, raw, t) <==> TimeOf(ExtractCursorCandidate(host, raw)) == Some(t)
  {
  }

  lemma CursorCarries(host: Host, stored: Value)
    ensures forall s :: CursorSequence(stored, s) <==> SequenceOf(NormalizeCursorState(host, stored)) == Some(s)
    ensures forall u :: CursorTime(host, stored, u) <==> TimeOf(NormalizeCursorState(host, stored)) == Some(u)
  {
  }

  lemma ShouldProcessIff(host: Host, stored: Value, record: SourceRecord)
    ensures ShouldProcessRecord(host, record, NormalizeCursorState(host, stored)) <==> Passes(host, stored, record)
  {
    RecordCarries(host, EnsureObject(record.raw));
    CursorCarries(host, stored);
  }

  // ----- the filter -----

  /** Every record is filtered, or none is. */
  ghost predicate Handled(host: Host, incremental: bool, stored: Value, ignoreCursor: bool, record: SourceRecord) {
    !incremental || ignoreCursor || Passes(host, stored, record)
  }

  lemma {:induction false} EligibleInParts(host: Host, cursor: Option<Cursor>, a: seq<SourceRecord>,
                                           b: seq<SourceRecord>)
    ensures Eligible(host, a + b, cursor) == Eligible(host, a, cursor) + Eligible(host, b, cursor)
  {
    if b == [] {
      assert a + b == a;
    } else {
      var n := |b| - 1;
      assert (a + b)[..|a + b| - 1] == a + b[..n];
      EligibleInParts(host, cursor, a, b[..n]);
    }
  }

  lemma OneMoreCounted(kept: seq<SourceRecord>, before: seq<SourceRecord>, last: SourceRecord, keepsLast: bool,
                       record: SourceRecord, keeps: bool)
    requires multiset(kept)[record] == if keeps then multiset(before)[record] else 0
    requires record == last ==> keeps == keepsLast
    ensures multiset(if keepsLast then kept + [last] else kept)[record] ==
            if keeps then multiset(before + [last])[record] else 0
  {
  }

  lemma {:induction false} EligibleCounts(host: Host, records: seq<SourceRecord>, cursor: Option<Cursor>,
                                          record: SourceRecord)
    ensures multiset(Eligible(host, records, cursor))[record] ==
            if ShouldProcessRecord(host, record, cursor) then multiset(records)[record] else 0
  {
    if records != [] {
      var before, last := records[..|records| - 1], records[|records| - 1];
      EligibleCounts(host, before, cursor, record);
      assert records == before + [last];
      EligibleWith(host, before, last, cursor);
      OneMoreCounted(Eligible(host, before, cursor), before, last, ShouldProcessRecord(host, last, cursor), record,
                     ShouldProcessRecord(host, record, cursor));
    }
  }

  /** The eligible records are those of the batch that are let pass, each as often as it comes, and in order: those
      of one part of the batch before those of the next. */
  lemma EligibleIff(host: Host, incremental: bool, stored: Value, batch: Batch, record: SourceRecord)
    ensures multiset(EligibleOf(host, incremental, stored, batch))[record] ==
            if Handled(host, incremental, stored, batch.ignoreCursor, record) then multiset(batch.records)[record]
            else 0
    ensures forall a, b :: batch.records == a + b ==>
              EligibleOf(host, incremental, stored, batch) ==
              EligibleOf(host, incremental, stored, batch.(records := a)) +
              EligibleOf(host, incremental, stored, batch.(records := b))
  {
    EligibleCounts(host, batch.records, NormalizeCursorState(host, stored), record);
    ShouldProcessIff(host, stored, record);
    forall a, b | batch.records == a + b
      ensures EligibleOf(host, incremental, stored, batch) ==
              EligibleOf(host, incremental, stored, batch.(records := a)) +
              EligibleOf(host, incremental, stored, batch.(records := b))
    {
      EligibleInParts(host, NormalizeCursorState(host, stored), a, b);
    }
  }

  // ----- what is stored -----

  lemma {:induction false} CleanRows(host: Host, handlings: seq<Handling>)
    requires TallyOf(host, handlings).failed == 0
    ensures var rows := TallyOf(host, handlings).rows;
            |rows| == |handlings| && forall i :: 0 <= i < |rows| ==> handlings[i] == Stored(rows[i])
  {
    if handlings != [] {
      CleanRows(host, handlings[..|handlings| - 1]);
    }
  }

  predicate Succeeded(e: Effect) {
    e.result.Ok? && e.result.value.recordsFailed == 0
  }

  lemma StoredAs(record: SourceRecord, t: Transformed, fault: Fault, row: Row)
    requires Handle(record, t, fault) == Stored(row)
    ensures t.errors == [] && row == Row(record.externalId, EnsureObject(record.raw), t.normalized)
  {
  }

  /** A run that succeeds stores each eligible record, in order, as the mapping transforms it. */
  lemma SuccessStoresEligible(host: Host, incremental: bool, stored: Value, transform: Transformer, batch: Batch)
    requires Succeeded(PassEffect(host, incremental, stored, transform, batch))
    ensures var eligible := EligibleOf(host, incremental, stored, batch);
            var rows := PassEffect(host, incremental, stored, transform, batch).rows;
            && |rows| == |eligible|
            && forall i :: 0 <= i < |rows| ==>
                 var t := transform(i, EnsureObject(eligible[i].raw));
                 && t.errors == []
                 && rows[i] == Row(eligible[i].externalId, EnsureObject(eligible[i].raw), t.normalized)
  {
    var eligible := EligibleOf(host, incremental, stored, batch);
    SummaryCounts(host, incremental, stored, transform, batch);
    var handlings := Handlings(transform, batch.faults, eligible, |eligible|);
    CleanRows(host, handlings);
    var rows := TallyOf(host, handlings).rows;
    forall i | 0 <= i < |rows|
      ensures var t := transform(i, EnsureObject(eligible[i].raw));
              && t.errors == []
              && rows[i] == Row(eligible[i].externalId, EnsureObject(eligible[i].raw), t.normalized)
    {
      assert handlings[i] == HandlingAt(transform, batch.faults, eligible, i);
      StoredAs(eligible[i], transform(i, EnsureObject(eligible[i].raw)), batch.faults(i), rows[i]);
    }
  }

  ghost predicate HasRow(rows: seq<Row>, record: SourceRecord) {
    exists i :: 0 <= i < |rows| && rows[i].externalId == record.externalId && rows[i].raw == EnsureObject(record.raw)
  }

  /** So it has a row for each record of the batch that is let pass, and for each that carries no cursor. */
  lemma SuccessKeepsRecord(host: Host, incremental: bool, stored: Value, transform: Transformer, batch: Batch,
                           record: SourceRecord)
    requires Succeeded(PassEffect(host, incremental, stored, transform, batch)) && record in batch.records
    ensures Handled(host, incremental, stored, batch.ignoreCursor, record) ==>
              HasRow(PassEffect(host, incremental, stored, transform, batch).rows, record)
    ensures CarriesNothing(host, record) ==>
              HasRow(PassEffect(host, incremental, stored, transform, batch).rows, record)
  {
    EligibleIff(host, incremental, stored, batch, record);
    SuccessStoresEligible(host, incremental, stored, transform, batch);
    var eligible := EligibleOf(host, incremental, stored, batch);
    if Handled(host, incremental, stored, batch.ignoreCursor, record) {
      assert multiset(batch.records)[record] > 0;
      assert record in multiset(eligible);
      var i :| 0 <= i < |eligible| && eligible[i] == record;
    }
  }
}
