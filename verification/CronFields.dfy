/** Parsing of five-field cron expressions into sets of numbers. */
module CronFields {
  import opened Common
  import opened Text

  datatype FieldSpec = FieldSpec(name: string, min: nat, max: nat, sevenIsSunday: bool)

  const MINUTE := FieldSpec("minute", 0, 59, false)
  const HOUR := FieldSpec("hour", 0, 23, false)
  const DAY_OF_MONTH := FieldSpec("dayOfMonth", 1, 31, false)
  const MONTH := FieldSpec("month", 1, 12, false)
  const DAY_OF_WEEK := FieldSpec("dayOfWeek", 0, 6, true)

  predicate GoodSpec(spec: FieldSpec) {
    spec.min <= spec.max && (spec.sevenIsSunday ==> spec.min == 0)
  }

  /** The messages of the thrown errors, with the data they name. */
  datatype CronError =
    | ExpressionRequired
    | FieldCount
    | EmptySegment(field: string)
    | InvalidStep(field: string)
    | InvalidRange(field: string)
    | NotAnInteger(field: string)
    | OutOfRange(field: string, value: nat)
    | RangeOrder(field: string)
    | EmptySet(field: string)
    | InvalidTimezone

  type Positive = n: nat | n > 0 witness 1

  /** What one comma segment asks for: start, start + step, ... up to end. */
  datatype Progression = Progression(start: nat, end: nat, step: Positive)

  ghost predicate Hits(p: Progression, v: nat) {
    exists k: nat :: v == p.start + k * p.step
  }

  ghost function Members(p: Progression): set<nat> {
    set v: nat | p.start <= v <= p.end && Hits(p, v)
  }

  // ----- one segment -----

  /** 2^97. */
  const POWER_97 := 0x2_0000_0000_0000_0000_0000_0000

  /** 2^1024 - 2^970: from here on `Number` reads a digit string as infinite, which is no integer. */
  const FIRST_INFINITE: nat :=
    0x3F_FFFF_FFFF_FFFF * POWER_97 * POWER_97 * POWER_97 * POWER_97 * POWER_97
                        * POWER_97 * POWER_97 * POWER_97 * POWER_97 * POWER_97

  predicate Overflows(n: nat) {
    n >= FIRST_INFINITE
  }

  /** Seven means Sunday, which is 0, in the weekday field only. */
  function Fold(value: nat, spec: FieldSpec): nat {
    if spec.sevenIsSunday && value == 7 then 0 else value
  }

  function ParseFieldValue(raw: string, spec: FieldSpec): Result<nat, CronError> {
    if !AllDigits(raw) then Err(NotAnInteger(spec.name))
    else
      var value := ParseDigits(raw);
      if Overflows(value) then Err(NotAnInteger(spec.name))
      else if spec.sevenIsSunday && value == 7 then Ok(0)
      else if value < spec.min || value > spec.max then Err(OutOfRange(spec.name, value))
      else Ok(value)
  }

  /** Only the first two parts count: a third part of `a-b-c` is ignored. */
  function ParseRange(value: string, step: Positive, spec: FieldSpec): Result<Progression, CronError> {
    var parts := Split(value, '-');
    if |parts| < 2 then Err(InvalidRange(spec.name))
    else
      var start :- ParseFieldValue(parts[0], spec);
      var end :- ParseFieldValue(parts[1], spec);
      if end < start then Err(RangeOrder(spec.name)) else Ok(Progression(start, end, step))
  }

  function LastIndexOf(s: string, c: char): (i: int)
    ensures -1 <= i < |s|
  {
    if s == "" then -1 else if s[|s| - 1] == c then |s| - 1 else LastIndexOf(s[..|s| - 1], c)
  }

  /** The match of `^(.+)\/(\d+)$`: the text around the last slash. */
  function StepMatch(s: string): (m: Option<(string, string)>)
    ensures m.Some? ==> AllDigits(m.value.1)
  {
    var i := LastIndexOf(s, '/');
    if i >= 1 && i + 1 < |s| && AllDigits(s[i + 1..]) then Some((s[..i], s[i + 1..])) else None
  }

  function ParseSegment(segment: string, spec: FieldSpec): Result<Progression, CronError> {
    if segment == "" then Err(EmptySegment(spec.name))
    else if segment == "*" then Ok(Progression(spec.min, spec.max, 1))
    else match StepMatch(segment)
      case Some((base, digits)) =>
        var step := ParseDigits(digits);
        if step == 0 || Overflows(step) then Err(InvalidStep(spec.name))
        else if base == "*" then Ok(Progression(spec.min, spec.max, step))
        else ParseRange(base, step, spec)
      case None =>
        if '-' in segment then ParseRange(segment, 1, spec)
        else
          var value :- ParseFieldValue(segment, spec);
          Ok(Progression(value, value, 1))
  }

  /** An accepted segment names a non-empty progression inside the field's range. */
  lemma SegmentInRange(segment: string, spec: FieldSpec)
    requires GoodSpec(spec) && ParseSegment(segment, spec).Ok?
    ensures var p := ParseSegment(segment, spec).value;
            && spec.min <= p.start <= p.end <= spec.max
            && p.start in Members(p)
  {
    var p := ParseSegment(segment, spec).value;
    assert p.start == p.start + 0 * p.step;
  }

  // ----- one field -----

  /** The union over the segments, or the error of the first segment that has one. */
  ghost function UnionOfSegments(segments: seq<string>, spec: FieldSpec): Result<set<nat>, CronError> {
    if segments == [] then Ok({})
    else
      var before :- UnionOfSegments(segments[..|segments| - 1], spec);
      var p :- ParseSegment(Trim(segments[|segments| - 1]), spec);
      Ok(before + Members(p))
  }

  ghost function FieldSet(value: string, spec: FieldSpec): Result<set<nat>, CronError> {
    var all :- UnionOfSegments(Split(value, ','), spec);
    if all == {} then Err(EmptySet(spec.name)) else Ok(all)
  }

  lemma {:induction false} MultiplesOrdered(j: nat, k: nat, step: nat)
    ensures j < k ==> j * step + step <= k * step
    decreases k
  {
    if j < k {
      MultiplesOrdered(j, k - 1, step);
      assert k * step == (k - 1) * step + step;
    }
  }

  lemma MultiplesApart(j: nat, k: nat, step: Positive)
    requires k * step <= j * step < k * step + step
    ensures j == k
  {
    MultiplesOrdered(j, k, step);
    MultiplesOrdered(k, j, step);
  }

  lemma HitBetween(p: Progression, k: nat, v: nat)
    requires Hits(p, v) && p.start + k * p.step <= v < p.start + k * p.step + p.step
    ensures v == p.start + k * p.step
  {
    var j: nat :| v == p.start + j * p.step;
    MultiplesApart(j, k, p.step);
  }

  method AddRange(target: set<nat>, start: nat, end: nat, step: nat, spec: FieldSpec)
    returns (r: Result<set<nat>, CronError>)
    ensures step == 0 ==> r == Err(InvalidStep(spec.name))
    ensures step > 0 ==> r == Ok(target + Members(Progression(start, end, step)))
  {
    if step <= 0 {
      return Err(InvalidStep(spec.name));
    }
    ghost var p := Progression(start, end, step);
    ghost var k := 0;
    var added := target;
    var value := start;
    while value <= end
      invariant value == p.start + k * p.step
      invariant added == target + set v | v in Members(p) && v < value
      decreases end + 1 - value
    {
      added := added + {value};
      forall v | v in Members(p) && value <= v < value + step ensures v == value {
        HitBetween(p, k, v);
      }
      assert value + step == p.start + (k + 1) * p.step;
      value, k := value + step, k + 1;
    }
    assert Members(p) == set v | v in Members(p) && v < value;
    return Ok(added);
  }

  lemma {:induction false} FirstErrorWins(segments: seq<string>, n: nat, spec: FieldSpec)
    requires n <= |segments| && UnionOfSegments(segments[..n], spec).Err?
    ensures UnionOfSegments(segments, spec) == UnionOfSegments(segments[..n], spec)
  {
    if n == |segments| {
      assert segments[..n] == segments;
    } else {
      assert segments[..|segments| - 1][..n] == segments[..n];
      FirstErrorWins(segments[..|segments| - 1], n, spec);
    }
  }

  method ParseField(value: string, spec: FieldSpec) returns (r: Result<set<nat>, CronError>)
    ensures r == FieldSet(value, spec)
  {
    var segments := Split(value, ',');
    var result: set<nat> := {};
    for i := 0 to |segments|
      invariant UnionOfSegments(segments[..i], spec) == Ok(result)
    {
      assert segments[..i + 1][..i] == segments[..i];
      var parsed := ParseSegment(Trim(segments[i]), spec);
      if parsed.Err? {
        FirstErrorWins(segments, i + 1, spec);
        return Err(parsed.error);
      }
      var p := parsed.value;
      var added := AddRange(result, p.start, p.end, p.step, spec);
      result := added.value;
    }
    assert segments[..|segments|] == segments;
    if result == {} {
      return Err(EmptySet(spec.name));
    }
    return Ok(result);
  }

  ghost predicate Accepts(segment: string, spec: FieldSpec) {
    ParseSegment(Trim(segment), spec).Ok?
  }

  ghost predicate Denotes(segment: string, spec: FieldSpec, v: nat) {
    Accepts(segment, spec) && v in Members(ParseSegment(Trim(segment), spec).value)
  }

  ghost predicate UnionMeans(segments: seq<string>, spec: FieldSpec, r: Result<set<nat>, CronError>) {
    && (r.Ok? <==> forall segment :: segment in segments ==> Accepts(segment, spec))
    && (r.Ok? ==> forall v :: v in r.value <==> exists segment :: segment in segments && Denotes(segment, spec, v))
  }

  lemma {:induction false} UnionMeaning(segments: seq<string>, spec: FieldSpec)
    ensures UnionMeans(segments, spec, UnionOfSegments(segments, spec))
  {
    if segments == [] {
    } else {
      var n := |segments| - 1;
      var before, last := segments[..n], segments[n];
      UnionMeaning(before, spec);
      assert segments == before + [last];
      assert last in segments;
      assert forall segment :: segment in segments <==> segment in before || segment == last;
      var r := UnionOfSegments(segments, spec);
      if r.Ok? {
        assert forall v :: v in r.value <==> v in UnionOfSegments(before, spec).value || Denotes(last, spec, v);
      }
    }
  }

  lemma SegmentError(segment: string, spec: FieldSpec)
    ensures ParseSegment(segment, spec).Err? ==> !ParseSegment(segment, spec).error.EmptySet?
  {
  }

  lemma {:induction false} UnionError(segments: seq<string>, spec: FieldSpec)
    ensures var r := UnionOfSegments(segments, spec); r.Err? ==> !r.error.EmptySet?
  {
    if segments == [] {
    } else {
      var before := UnionOfSegments(segments[..|segments| - 1], spec);
      UnionError(segments[..|segments| - 1], spec);
      SegmentError(Trim(segments[|segments| - 1]), spec);
    }
  }

  lemma {:induction false} UnionInRange(segments: seq<string>, spec: FieldSpec)
    requires GoodSpec(spec) && UnionOfSegments(segments, spec).Ok?
    ensures segments != [] ==> UnionOfSegments(segments, spec).value != {}
    ensures forall v :: v in UnionOfSegments(segments, spec).value ==> spec.min <= v <= spec.max
  {
    if segments == [] {
    } else {
      UnionInRange(segments[..|segments| - 1], spec);
      SegmentInRange(Trim(segments[|segments| - 1]), spec);
    }
  }

  /** A field is accepted iff each of its segments is. It then denotes their union, which is not empty
      and lies in the field's range, so the error for an empty set is never thrown. */
  lemma FieldDenotation(value: string, spec: FieldSpec)
    requires GoodSpec(spec)
    ensures UnionMeans(Split(value, ','), spec, FieldSet(value, spec))
    ensures var r := FieldSet(value, spec);
            && (r.Ok? ==> r.value != {} && forall v :: v in r.value ==> spec.min <= v <= spec.max)
            && (r.Err? ==> !r.error.EmptySet?)
  {
    var segments := Split(value, ',');
    assert FieldSet(value, spec) == UnionOfSegments(segments, spec) by {
      if UnionOfSegments(segments, spec).Ok? {
        UnionInRange(segments, spec);
      }
    }
    UnionMeaning(segments, spec);
    UnionError(segments, spec);
    if UnionOfSegments(segments, spec).Ok? {
      UnionInRange(segments, spec);
    }
  }
}
