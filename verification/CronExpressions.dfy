/** Whole cron expressions, and a printer that the parser inverts. */
module CronExpressions {
  import opened Common
  import opened Text
  import opened CronFields

  datatype ParsedCron = ParsedCron(
    expression: string, minute: set<nat>, hour: set<nat>, dayOfMonth: set<nat>, month: set<nat>, dayOfWeek: set<nat>)

  /** The meaning of an expression, error by error, in the order the parser meets them. */
  ghost function CronOf(expression: string): Result<ParsedCron, CronError> {
    var normalized := Normalize(expression);
    var fields := Split(normalized, ' ');
    if normalized == "" then Err(ExpressionRequired)
    else if |fields| != 5 then Err(FieldCount)
    else
      var minute :- FieldSet(fields[0], MINUTE);
      var hour :- FieldSet(fields[1], HOUR);
      var dayOfMonth :- FieldSet(fields[2], DAY_OF_MONTH);
      var month :- FieldSet(fields[3], MONTH);
      var dayOfWeek :- FieldSet(fields[4], DAY_OF_WEEK);
      Ok(ParsedCron(normalized, minute, hour, dayOfMonth, month, dayOfWeek))
  }

  method ParseCronExpression(expression: string) returns (r: Result<ParsedCron, CronError>)
    ensures r == CronOf(expression)
  {
    var normalized := Normalize(expression);
    if normalized == "" {
      return Err(ExpressionRequired);
    }
    var fields := Split(normalized, ' ');
    if |fields| != 5 {
      return Err(FieldCount);
    }
    var minute :- ParseField(fields[0], MINUTE);
    var hour :- ParseField(fields[1], HOUR);
    var dayOfMonth :- ParseField(fields[2], DAY_OF_MONTH);
    var month :- ParseField(fields[3], MONTH);
    var dayOfWeek :- ParseField(fields[4], DAY_OF_WEEK);
    return Ok(ParsedCron(normalized, minute, hour, dayOfMonth, month, dayOfWeek));
  }

  /** Five non-empty sets, each inside its field's range. */
  predicate WellFormed(c: ParsedCron) {
    && c.minute != {} && (forall v :: v in c.minute ==> v <= 59)
    && c.hour != {} && (forall v :: v in c.hour ==> v <= 23)
    && c.dayOfMonth != {} && (forall v :: v in c.dayOfMonth ==> 1 <= v <= 31)
    && c.month != {} && (forall v :: v in c.month ==> 1 <= v <= 12)
    && c.dayOfWeek != {} && (forall v :: v in c.dayOfWeek ==> v <= 6)
  }

  lemma ParsedIsWellFormed(expression: string)
    requires CronOf(expression).Ok?
    ensures WellFormed(CronOf(expression).value)
  {
    var fields := Split(Normalize(expression), ' ');
    FieldDenotation(fields[0], MINUTE);
    FieldDenotation(fields[1], HOUR);
    FieldDenotation(fields[2], DAY_OF_MONTH);
    FieldDenotation(fields[3], MONTH);
    FieldDenotation(fields[4], DAY_OF_WEEK);
  }

  /** The normalised expression, and the trimmed one that the scheduler stores, parse like the original. */
  lemma StoredExpressionParsesAlike(expression: string)
    ensures CronOf(Normalize(expression)) == CronOf(expression)
    ensures CronOf(Trim(expression)) == CronOf(expression)
    ensures CronOf(expression).Ok? ==> CronOf(CronOf(expression).value.expression) == CronOf(expression)
  {
    NormalizeIdempotent(expression);
  }

  // ----- a printer, and the round trip through the parser -----

  datatype Segment =
    | Star
    | StarStep(step: nat)
    | Value(value: nat)
    | Range(first: nat, last: nat)
    | RangeStep(first: nat, last: nat, step: nat)

  function Render(segment: Segment): string {
    match segment
    case Star => "*"
    case StarStep(step) => "*/" + ToDigits(step)
    case Value(value) => ToDigits(value)
    case Range(first, last) => ToDigits(first) + "-" + ToDigits(last)
    case RangeStep(first, last, step) => ToDigits(first) + "-" + ToDigits(last) + "/" + ToDigits(step)
  }

  /** The values of a segment, when it is one that the field allows. */
  predicate Admissible(value: nat, spec: FieldSpec) {
    !Overflows(value) && spec.min <= Fold(value, spec) <= spec.max
  }

  predicate Allowed(segment: Segment, spec: FieldSpec) {
    match segment
    case Star => true
    case StarStep(step) => step > 0 && !Overflows(step)
    case Value(value) => Admissible(value, spec)
    case Range(first, last) =>
      Admissible(first, spec) && Admissible(last, spec) && Fold(first, spec) <= Fold(last, spec)
    case RangeStep(first, last, step) =>
      step > 0 && !Overflows(step) &&
      Admissible(first, spec) && Admissible(last, spec) && Fold(first, spec) <= Fold(last, spec)
  }

  function Asked(segment: Segment, spec: FieldSpec): Progression
    requires Allowed(segment, spec)
  {
    match segment
    case Star => Progression(spec.min, spec.max, 1)
    case StarStep(step) => Progression(spec.min, spec.max, step)
    case Value(value) => Progression(Fold(value, spec), Fold(value, spec), 1)
    case Range(first, last) => Progression(Fold(first, spec), Fold(last, spec), 1)
    case RangeStep(first, last, step) => Progression(Fold(first, spec), Fold(last, spec), step)
  }

  lemma DigitsParse(n: nat, spec: FieldSpec)
    requires GoodSpec(spec)
    ensures ParseFieldValue(ToDigits(n), spec) ==
            if Admissible(n, spec) then Ok(Fold(n, spec))
            else Err(if Overflows(n) then NotAnInteger(spec.name) else OutOfRange(spec.name, n))
  {
    ParseToDigits(n);
  }

  lemma {:induction false} LastIndexAbsent(s: string, c: char)
    requires c !in s
    ensures LastIndexOf(s, c) == -1
  {
    if s != "" { LastIndexAbsent(s[..|s| - 1], c); }
  }

  lemma {:induction false} LastIndexFound(head: string, tail: string, c: char)
    requires c !in tail
    ensures LastIndexOf(head + [c] + tail, c) == |head|
  {
    var s := head + [c] + tail;
    if tail != "" {
      assert s[..|s| - 1] == head + [c] + tail[..|tail| - 1];
      LastIndexFound(head, tail[..|tail| - 1], c);
    }
  }

  /** A step suffix of digits is split off at its slash. */
  lemma StepMatchFound(base: string, step: nat)
    requires base != ""
    ensures StepMatch(base + "/" + ToDigits(step)) == Some((base, ToDigits(step)))
  {
    ParseToDigits(step);
    LastIndexFound(base, ToDigits(step), '/');
    var s := base + "/" + ToDigits(step);
    assert s[..|base|] == base;
    assert s[|base| + 1..] == ToDigits(step);
  }

  lemma RangeParses(first: nat, last: nat, step: Positive, spec: FieldSpec)
    requires GoodSpec(spec)
    ensures var ok := Admissible(first, spec) && Admissible(last, spec) && Fold(first, spec) <= Fold(last, spec);
            var r := ParseRange(ToDigits(first) + "-" + ToDigits(last), step, spec);
            && (r.Ok? <==> ok)
            && (ok ==> r.value == Progression(Fold(first, spec), Fold(last, spec), step))
  {
    ParseToDigits(first);
    ParseToDigits(last);
    SplitFirst(ToDigits(first), ToDigits(last), '-');
    SplitWithout(ToDigits(last), '-');
    DigitsParse(first, spec);
    DigitsParse(last, spec);
  }

  predicate Plain(s: string) {
    forall i :: 0 <= i < |s| ==> IsDigit(s[i]) || s[i] == '*' || s[i] == '/' || s[i] == '-'
  }

  lemma DigitsPlain(prefix: string, n: nat)
    requires Plain(prefix)
    ensures prefix + ToDigits(n) != "" && Plain(prefix + ToDigits(n))
  {
    ParseToDigits(n);
  }

  lemma RenderIsPlain(segment: Segment)
    ensures Render(segment) != "" && Plain(Render(segment))
  {
    match segment
    case Star =>
    case StarStep(step) => DigitsPlain("*/", step);
    case Value(value) => DigitsPlain("", value); assert "" + ToDigits(value) == ToDigits(value);
    case Range(first, last) => RangePlain(first, last);
    case RangeStep(first, last, step) =>
      RangePlain(first, last);
      DigitsPlain(ToDigits(first) + "-" + ToDigits(last) + "/", step);
  }

  lemma RangePlain(first: nat, last: nat)
    ensures Plain(ToDigits(first) + "-" + ToDigits(last))
  {
    ParseToDigits(first);
    DigitsPlain(ToDigits(first) + "-", last);
  }

  /** The text of a segment holds no space and no comma, so it survives the splits. */
  lemma RenderPlain(segment: Segment)
    ensures var s := Render(segment); s != "" && NoSpaces(s) && ',' !in s
  {
    RenderIsPlain(segment);
    var s := Render(segment);
    forall i | 0 <= i < |s| ensures !IsSpace(s[i]) && s[i] != ',' {
      assert IsDigit(s[i]) || s[i] == '*' || s[i] == '/' || s[i] == '-';
    }
  }

  lemma NoSpacesTrimmed(s: string)
    requires NoSpaces(s)
    ensures Trim(s) == s
  {
  }

  lemma StarStepParses(step: nat, spec: FieldSpec)
    ensures ParseSegment(Render(StarStep(step)), spec) ==
            if step > 0 && !Overflows(step) then Ok(Progression(spec.min, spec.max, step))
            else Err(InvalidStep(spec.name))
  {
    StepMatchFound("*", step);
    ParseToDigits(step);
    assert Render(StarStep(step)) == "*" + "/" + ToDigits(step);
  }

  lemma ValueParses(value: nat, spec: FieldSpec)
    requires GoodSpec(spec)
    ensures var r := ParseSegment(Render(Value(value)), spec);
            && (r.Ok? <==> Admissible(value, spec))
            && (r.Ok? ==> r.value == Progression(Fold(value, spec), Fold(value, spec), 1))
  {
    ParseToDigits(value);
    LastIndexAbsent(ToDigits(value), '/');
    DigitsParse(value, spec);
  }

  lemma RangeSegmentParses(first: nat, last: nat, spec: FieldSpec)
    requires GoodSpec(spec)
    ensures ParseSegment(Render(Range(first, last)), spec)
         == ParseRange(ToDigits(first) + "-" + ToDigits(last), 1, spec)
  {
    var s := Render(Range(first, last));
    ParseToDigits(first);
    ParseToDigits(last);
    LastIndexAbsent(s, '/');
    assert s[|ToDigits(first)|] == '-';
  }

  lemma RangeStepParses(first: nat, last: nat, step: nat, spec: FieldSpec)
    requires GoodSpec(spec)
    ensures ParseSegment(Render(RangeStep(first, last, step)), spec)
         == if step == 0 || Overflows(step) then Err(InvalidStep(spec.name))
            else ParseRange(ToDigits(first) + "-" + ToDigits(last), step, spec)
  {
    var base := ToDigits(first) + "-" + ToDigits(last);
    ParseToDigits(first);
    ParseToDigits(step);
    StepMatchFound(base, step);
    assert base[|ToDigits(first)|] == '-';
  }

  /** The parser accepts exactly the allowed segments, and reads what was asked. */
  lemma SegmentRoundTrip(segment: Segment, spec: FieldSpec)
    requires GoodSpec(spec)
    ensures var r := ParseSegment(Trim(Render(segment)), spec);
            && (r.Ok? <==> Allowed(segment, spec))
            && (r.Ok? ==> r.value == Asked(segment, spec))
  {
    RenderPlain(segment);
    NoSpacesTrimmed(Render(segment));
    match segment
    case Star =>
    case StarStep(step) => StarStepParses(step, spec);
    case Value(value) => ValueParses(value, spec);
    case Range(first, last) => RangeSegmentParses(first, last, spec); RangeParses(first, last, 1, spec);
    case RangeStep(first, last, step) =>
      RangeStepParses(first, last, step, spec);
      if step > 0 {
        RangeParses(first, last, step, spec);
      }
  }

  function RenderAll(segments: seq<Segment>): seq<string> {
    seq(|segments|, i requires 0 <= i < |segments| => Render(segments[i]))
  }

  function RenderField(segments: seq<Segment>): string {
    Join(RenderAll(segments), ',')
  }

  ghost predicate AskedBy(segments: seq<Segment>, spec: FieldSpec, v: nat) {
    exists i :: 0 <= i < |segments| && Allowed(segments[i], spec) && v in Members(Asked(segments[i], spec))
  }

  predicate AllAllowed(segments: seq<Segment>, spec: FieldSpec) {
    forall i :: 0 <= i < |segments| ==> Allowed(segments[i], spec)
  }

  ghost predicate Reads(values: set<nat>, segments: seq<Segment>, spec: FieldSpec) {
    forall v: nat :: v in values <==> AskedBy(segments, spec, v)
  }

  /** A printed field is accepted iff all its segments are allowed, and then gives their union. */
  lemma FieldRoundTrip(segments: seq<Segment>, spec: FieldSpec)
    requires GoodSpec(spec) && segments != []
    ensures var r := FieldSet(RenderField(segments), spec);
            && (r.Ok? <==> AllAllowed(segments, spec))
            && (r.Ok? ==> Reads(r.value, segments, spec))
  {
    var texts := RenderAll(segments);
    forall i | 0 <= i < |segments|
      ensures ',' !in texts[i]
      ensures Accepts(texts[i], spec) <==> Allowed(segments[i], spec)
      ensures Accepts(texts[i], spec) ==> ParseSegment(Trim(texts[i]), spec).value == Asked(segments[i], spec)
    {
      RenderPlain(segments[i]);
      SegmentRoundTrip(segments[i], spec);
    }
    SplitJoin(texts, ',');
    FieldDenotation(RenderField(segments), spec);
    var r := FieldSet(RenderField(segments), spec);
    assert UnionMeans(texts, spec, r);
    if r.Ok? {
      forall v: nat | v in r.value ensures AskedBy(segments, spec, v) {
        var text :| text in texts && Denotes(text, spec, v);
        var i :| 0 <= i < |texts| && texts[i] == text;
      }
      forall v: nat | AskedBy(segments, spec, v) ensures v in r.value {
        var i :| 0 <= i < |segments| && Allowed(segments[i], spec) && v in Members(Asked(segments[i], spec));
        assert texts[i] in texts && Denotes(texts[i], spec, v);
      }
    }
  }

  lemma {:induction false} JoinPlain(texts: seq<string>, sep: char)
    requires texts != [] && !IsSpace(sep)
    requires forall i :: 0 <= i < |texts| ==> texts[i] != "" && NoSpaces(texts[i])
    ensures Join(texts, sep) != "" && NoSpaces(Join(texts, sep))
  {
    if |texts| > 1 { JoinPlain(texts[1..], sep); }
  }

  lemma RenderFieldPlain(segments: seq<Segment>)
    requires segments != []
    ensures RenderField(segments) != "" && NoSpaces(RenderField(segments))
  {
    forall i | 0 <= i < |segments| ensures Render(segments[i]) != "" && NoSpaces(Render(segments[i])) {
      RenderPlain(segments[i]);
    }
    JoinPlain(RenderAll(segments), ',');
  }

  lemma {:induction false} JoinFieldsNormal(fields: seq<string>)
    requires fields != []
    requires forall i :: 0 <= i < |fields| ==> fields[i] != "" && NoSpaces(fields[i])
    ensures var s := Join(fields, ' '); s != "" && Trimmed(s) && SingleSpaced(s)
  {
    if |fields| > 1 {
      JoinFieldsNormal(fields[1..]);
    }
  }

  function RenderExpression(minute: seq<Segment>, hour: seq<Segment>, dayOfMonth: seq<Segment>,
                            month: seq<Segment>, dayOfWeek: seq<Segment>): string {
    Join([RenderField(minute), RenderField(hour), RenderField(dayOfMonth), RenderField(month),
          RenderField(dayOfWeek)], ' ')
  }

  lemma RenderExpressionFields(minute: seq<Segment>, hour: seq<Segment>, dayOfMonth: seq<Segment>,
                               month: seq<Segment>, dayOfWeek: seq<Segment>)
    requires minute != [] && hour != [] && dayOfMonth != [] && month != [] && dayOfWeek != []
    ensures var text := RenderExpression(minute, hour, dayOfMonth, month, dayOfWeek);
            && Normalize(text) == text && text != ""
            && Split(text, ' ') == [RenderField(minute), RenderField(hour), RenderField(dayOfMonth),
                                    RenderField(month), RenderField(dayOfWeek)]
  {
    RenderFieldPlain(minute);
    RenderFieldPlain(hour);
    RenderFieldPlain(dayOfMonth);
    RenderFieldPlain(month);
    RenderFieldPlain(dayOfWeek);
    var texts := [RenderField(minute), RenderField(hour), RenderField(dayOfMonth), RenderField(month),
                  RenderField(dayOfWeek)];
    var text := Join(texts, ' ');
    JoinFieldsNormal(texts);
    CollapseSingleSpaced(text);
    SplitJoin(texts, ' ');
  }

  /** A printed expression parses iff every segment is allowed in its field, and then to the five
      unions that were asked for. */
  lemma ExpressionRoundTrip(minute: seq<Segment>, hour: seq<Segment>, dayOfMonth: seq<Segment>,
                            month: seq<Segment>, dayOfWeek: seq<Segment>)
    requires minute != [] && hour != [] && dayOfMonth != [] && month != [] && dayOfWeek != []
    ensures var r := CronOf(RenderExpression(minute, hour, dayOfMonth, month, dayOfWeek));
            && (r.Ok? <==> && AllAllowed(minute, MINUTE) && AllAllowed(hour, HOUR)
                           && AllAllowed(dayOfMonth, DAY_OF_MONTH) && AllAllowed(month, MONTH)
                           && AllAllowed(dayOfWeek, DAY_OF_WEEK))
            && (r.Ok? ==> && Reads(r.value.minute, minute, MINUTE) && Reads(r.value.hour, hour, HOUR)
                          && Reads(r.value.dayOfMonth, dayOfMonth, DAY_OF_MONTH)
                          && Reads(r.value.month, month, MONTH)
                          && Reads(r.value.dayOfWeek, dayOfWeek, DAY_OF_WEEK))
  {
    RenderExpressionFields(minute, hour, dayOfMonth, month, dayOfWeek);
    FieldRoundTrip(minute, MINUTE);
    FieldRoundTrip(hour, HOUR);
    FieldRoundTrip(dayOfMonth, DAY_OF_MONTH);
    FieldRoundTrip(month, MONTH);
    FieldRoundTrip(dayOfWeek, DAY_OF_WEEK);
  }
}
