/** Incremental cursors: a sequence number, a time, or both. */
module Cursors {
  import opened Common
  import opened Json
  import opened Transformation

  /** `updatedAt` is the instant that the ISO text of the source denotes. */
  datatype Cursor = Cursor(sequence: Option<real>, updatedAt: Option<int>)

  predicate Empty(c: Cursor) {
    c.sequence.None? && c.updatedAt.None?
  }

  function NonEmpty(c: Cursor): Option<Cursor> {
    if Empty(c) then None else Some(c)
  }

  /** The stored cursor of a pipeline, read leniently. */
  function NormalizeCursorState(host: Host, stored: Value): Option<Cursor> {
    if !stored.Obj? then None
    else
      var sequence := Prop(stored.props, "sequence");
      var updatedAt := Prop(stored.props, "updatedAt");
      NonEmpty(Cursor(
        if sequence.Num? && sequence.n.Finite? then Some(sequence.n.r) else None,
        if updatedAt.Str? then host.parseDate(updatedAt.s) else None))
  }

  /** The cursor that a record carries; here a numeric text or a numeric date count as well. */
  function ExtractCursorCandidate(host: Host, raw: map<string, Value>): Option<Cursor> {
    var sequence := Prop(raw, "sequence");
    var updatedAt := Prop(raw, "updatedAt");
    var number := match sequence
      case Num(n) => n
      case Str(s) => host.toNumber(s)
      case _ => NaN;
    NonEmpty(Cursor(
      if number.Finite? then Some(number.r) else None,
      match updatedAt
      case Str(s) => host.parseDate(s)
      case Num(n) => host.dateOfNumber(n)
      case _ => None))
  }

  function CursorToJson(host: Host, c: Cursor): map<string, Value> {
    var sequence: map<string, Value> :=
      if c.sequence.Some? then map["sequence" := Num(Finite(c.sequence.value))] else map[];
    if c.updatedAt.Some? then sequence["updatedAt" := Str(host.printDate(c.updatedAt.value))] else sequence
  }

  /** A cursor that is written reads back as itself, from the store and from a record. */
  lemma CursorRoundTrip(host: Host, c: Cursor)
    requires host.Valid() && !Empty(c)
    ensures NormalizeCursorState(host, Obj(CursorToJson(host, c))) == Some(c)
    ensures ExtractCursorCandidate(host, CursorToJson(host, c)) == Some(c)
  {
    var json := CursorToJson(host, c);
    assert Prop(json, "sequence") ==
           if c.sequence.Some? then Num(Finite(c.sequence.value)) else Undefined;
    assert Prop(json, "updatedAt") ==
           if c.updatedAt.Some? then Str(host.printDate(c.updatedAt.value)) else Undefined;
    if c.updatedAt.Some? {
      var t := c.updatedAt.value;
      assert host.parseDate(host.printDate(t)) == Some(t);
    }
  }

  predicate IsCandidateNewer(candidate: Cursor, cursor: Cursor) {
    if candidate.sequence.Some? && cursor.sequence.Some? then candidate.sequence.value > cursor.sequence.value
    else if candidate.updatedAt.Some? && cursor.updatedAt.Some? then
      candidate.updatedAt.value > cursor.updatedAt.value
    else true
  }

  function PickLatestCursor(left: Option<Cursor>, right: Option<Cursor>): Option<Cursor> {
    if left.None? then right
    else if right.None? then left
    else if left.value.sequence.Some? && right.value.sequence.Some? then
      if right.value.sequence.value > left.value.sequence.value then right else left
    else if left.value.updatedAt.Some? && right.value.updatedAt.Some? then
      if right.value.updatedAt.value > left.value.updatedAt.value then right else left
    else if right.value.sequence.Some? && left.value.sequence.None? then right
    else if right.value.updatedAt.Some? && left.value.updatedAt.None? then right
    else left
  }

  /** Of two cursors the later one is picked, the first of two equals, and the second of two that cannot be
      compared: what the filter calls newer. */
  lemma PickIsNewer(c: Cursor, d: Cursor)
    requires !Empty(c) && !Empty(d)
    ensures PickLatestCursor(Some(c), Some(d)) == Some(if IsCandidateNewer(d, c) then d else c)
    ensures PickLatestCursor(None, Some(d)) == Some(d) && PickLatestCursor(Some(c), None) == Some(c)
  {
  }

  // ----- the two ways in which cursors are totally ordered -----

  datatype Kind = BySequence | ByTime

  /** All have a sequence, or all have a time and none a sequence. */
  predicate Carries(kind: Kind, c: Cursor) {
    match kind
    case BySequence => c.sequence.Some?
    case ByTime => c.sequence.None? && c.updatedAt.Some?
  }

  function Key(kind: Kind, c: Cursor): real
    requires Carries(kind, c)
  {
    match kind
    case BySequence => c.sequence.value
    case ByTime => c.updatedAt.value as real
  }

  /** Within one kind, newer means a greater key, and the latest is a maximum. */
  lemma KindIsOrdered(kind: Kind, c: Cursor, d: Cursor)
    requires Carries(kind, c) && Carries(kind, d)
    ensures IsCandidateNewer(c, d) <==> Key(kind, c) > Key(kind, d)
    ensures var latest := PickLatestCursor(Some(c), Some(d));
            && latest in {Some(c), Some(d)} && Carries(kind, latest.value)
            && Key(kind, c) <= Key(kind, latest.value) && Key(kind, d) <= Key(kind, latest.value)
  {
  }
}
