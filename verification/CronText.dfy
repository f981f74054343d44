/** What the text of a cron expression means: which texts are accepted, and which values they name. */
module CronText {
  import opened Common
  import opened Text
  import opened CronFields
  import opened CronExpressions

  // ----- one segment, whatever its text -----

  /** A numeral, with any number of leading zeros, that the field allows, and the value it stands for there. */
  predicate ValueSays(text: string, spec: FieldSpec, v: nat) {
    AllDigits(text) && !Overflows(ParseDigits(text)) &&
    if spec.sevenIsSunday && ParseDigits(text) == 7 then v == 0
    else v == ParseDigits(text) && spec.min <= v <= spec.max
  }

  predicate BoundsSay(first: string, last: string, spec: FieldSpec, start: nat, end: nat) {
    && '-' !in first && '-' !in last
    && ValueSays(first, spec, start) && ValueSays(last, spec, end) && start <= end
  }

  /** Two numerals around a hyphen; what follows a second hyphen is ignored. */
  ghost predicate RangeSays(text: string, spec: FieldSpec, start: nat, end: nat) {
    || (exists first, last :: text == first + "-" + last && BoundsSay(first, last, spec, start, end))
    || (exists first, last, rest :: text == first + "-" + last + "-" + rest && BoundsSay(first, last, spec, start, end))
  }

  /** A text, a slash and digits. */
  predicate Steps(text: string, base: string, digits: string) {
    text == base + "/" + digits && base != "" && digits != "" && AllDigits(digits)
  }

  ghost predicate HasStep(text: string) {
    exists base, digits :: Steps(text, base, digits)
  }

  ghost predicate StepSays(base: string, digits: string, spec: FieldSpec, p: Progression)
    requires AllDigits(digits)
  {
    && p.step == ParseDigits(digits) && !Overflows(p.step)
    && if base == "*" then p.start == spec.min && p.end == spec.max else RangeSays(base, spec, p.start, p.end)
  }

  ghost predicate PlainSays(text: string, spec: FieldSpec, p: Progression) {
    p.step == 1 &&
    if '-' in text then RangeSays(text, spec, p.start, p.end)
    else text != "" && ValueSays(text, spec, p.start) && p.end == p.start
  }

  /** A star, or a star or range with a step, or a range or numeral without one. */
  ghost predicate SegmentSays(text: string, spec: FieldSpec, p: Progression) {
    || (text == "*" && p == Progression(spec.min, spec.max, 1))
    || (exists base, digits :: Steps(text, base, digits) && StepSays(base, digits, spec, p))
    || (!HasStep(text) && PlainSays(text, spec, p))
  }

  lemma ValueMeaning(text: string, spec: FieldSpec, v: nat)
    requires GoodSpec(spec)
    ensures ParseFieldValue(text, spec) == Ok(v) <==> ValueSays(text, spec, v)
  {
  }

  lemma SplitTwo(first: string, last: string, sep: char)
    requires sep !in first && sep !in last
    ensures Split(first + [sep] + last, sep) == [first, last]
  {
    SplitFirst(first, last, sep);
    SplitWithout(last, sep);
  }

  lemma SplitMore(first: string, last: string, rest: string, sep: char)
    requires sep !in first && sep !in last
    ensures var parts := Split(first + [sep] + last + [sep] + rest, sep);
            |parts| >= 2 && parts[0] == first && parts[1] == last
  {
    var tail := last + [sep] + rest;
    assert first + [sep] + last + [sep] + rest == first + [sep] + tail;
    SplitFirst(first, tail, sep);
    SplitFirst(last, rest, sep);
  }

  lemma RangeMeaning(text: string, step: Positive, spec: FieldSpec, start: nat, end: nat)
    requires GoodSpec(spec)
    ensures ParseRange(text, step, spec) == Ok(Progression(start, end, step)) <==> RangeSays(text, spec, start, end)
  {
    var parts := Split(text, '-');
    if ParseRange(text, step, spec) == Ok(Progression(start, end, step)) {
      JoinSplit(text, '-');
      ValueMeaning(parts[0], spec, start);
      ValueMeaning(parts[1], spec, end);
      assert BoundsSay(parts[0], parts[1], spec, start, end);
      if |parts| == 2 {
        assert text == parts[0] + "-" + parts[1];
      } else {
        assert text == parts[0] + "-" + parts[1] + "-" + Join(parts[2..], '-') by {
          assert parts[1..][1..] == parts[2..];
        }
      }
    }
    if RangeSays(text, spec, start, end) {
      var first, last := FirstTwo(text, spec, start, end);
      ValueMeaning(first, spec, start);
      ValueMeaning(last, spec, end);
    }
  }

  lemma FirstTwo(text: string, spec: FieldSpec, start: nat, end: nat) returns (first: string, last: string)
    requires RangeSays(text, spec, start, end)
    ensures BoundsSay(first, last, spec, start, end)
    ensures var parts := Split(text, '-'); |parts| >= 2 && parts[0] == first && parts[1] == last
  {
    if exists first, last :: text == first + "-" + last && BoundsSay(first, last, spec, start, end) {
      first, last :| text == first + "-" + last && BoundsSay(first, last, spec, start, end);
      SplitTwo(first, last, '-');
    } else {
      var rest;
      first, last, rest :| text == first + "-" + last + "-" + rest && BoundsSay(first, last, spec, start, end);
      SplitMore(first, last, rest, '-');
    }
  }

  lemma {:induction false} LastIndexIs(s: string, c: char)
    ensures LastIndexOf(s, c) >= 0 ==> s[LastIndexOf(s, c)] == c
  {
    if s != "" && s[|s| - 1] != c {
      LastIndexIs(s[..|s| - 1], c);
    }
  }

  lemma StepMatchIff(text: string, base: string, digits: string)
    ensures StepMatch(text) == Some((base, digits)) <==> Steps(text, base, digits)
  {
    if StepMatch(text) == Some((base, digits)) {
      LastIndexIs(text, '/');
    }
    if Steps(text, base, digits) {
      LastIndexFound(base, digits, '/');
      assert text[..|base|] == base && text[|base| + 1..] == digits;
    }
  }

  lemma StepMeaning(text: string, base: string, digits: string, spec: FieldSpec, p: Progression)
    requires GoodSpec(spec) && StepMatch(text) == Some((base, digits)) && text != "" && text != "*"
    ensures ParseSegment(text, spec) == Ok(p) <==> StepSays(base, digits, spec, p)
  {
    RangeMeaning(base, p.step, spec, p.start, p.end);
  }

  lemma PlainMeaning(text: string, spec: FieldSpec, p: Progression)
    requires GoodSpec(spec) && StepMatch(text).None? && text != "*"
    ensures ParseSegment(text, spec) == Ok(p) <==> PlainSays(text, spec, p)
  {
    RangeMeaning(text, 1, spec, p.start, p.end);
    ValueMeaning(text, spec, p.start);
  }

  lemma StarMeaning(spec: FieldSpec, p: Progression)
    ensures ParseSegment("*", spec) == Ok(p) <==> p == Progression(spec.min, spec.max, 1)
    ensures !PlainSays("*", spec, p)
  {
    assert !IsDigit("*"[0]);
  }

  lemma StepDecides(text: string)
    ensures StepMatch(text).Some? <==> HasStep(text)
    ensures forall base, digits :: StepMatch(text) == Some((base, digits)) <==> Steps(text, base, digits)
  {
    forall base, digits ensures StepMatch(text) == Some((base, digits)) <==> Steps(text, base, digits) {
      StepMatchIff(text, base, digits);
    }
    if StepMatch(text).Some? {
      assert Steps(text, StepMatch(text).value.0, StepMatch(text).value.1);
    }
  }

  /** The parser reads a segment as a progression iff its text says so. */
  lemma SegmentMeaning(text: string, spec: FieldSpec, p: Progression)
    requires GoodSpec(spec)
    ensures ParseSegment(text, spec) == Ok(p) <==> SegmentSays(text, spec, p)
  {
    StepDecides(text);
    if text == "*" {
      StarMeaning(spec, p);
      assert !HasStep(text);
    } else if StepMatch(text).Some? {
      var (base, digits) := StepMatch(text).value;
      StepMeaning(text, base, digits, spec, p);
    } else {
      PlainMeaning(text, spec, p);
    }
  }

  // ----- a field -----

  ghost predicate SaysSomething(text: string, spec: FieldSpec) {
    exists p :: SegmentSays(text, spec, p)
  }

  ghost predicate FieldAccepts(text: string, spec: FieldSpec) {
    forall segment :: segment in Split(text, ',') ==> SaysSomething(segment, spec)
  }

  ghost predicate SegmentNames(text: string, spec: FieldSpec, v: nat) {
    exists p :: SegmentSays(text, spec, p) && v in Members(p)
  }

  ghost predicate FieldNames(text: string, spec: FieldSpec, v: nat) {
    exists segment :: segment in Split(text, ',') && SegmentNames(segment, spec, v)
  }

  lemma {:induction false} PartsHaveNoSpaces(s: string, sep: char)
    requires NoSpaces(s)
    ensures forall part :: part in Split(s, sep) ==> NoSpaces(part)
  {
    if s != "" {
      PartsHaveNoSpaces(s[1..], sep);
      var rest := Split(s[1..], sep);
      assert forall part :: part in rest[1..] ==> part in rest;
      assert rest[0] in rest;
    }
  }

  lemma DenotesIff(text: string, spec: FieldSpec)
    requires GoodSpec(spec) && NoSpaces(text)
    ensures Accepts(text, spec) <==> SaysSomething(text, spec)
    ensures forall v :: Denotes(text, spec, v) <==> SegmentNames(text, spec, v)
  {
    NoSpacesTrimmed(text);
    forall p ensures ParseSegment(text, spec) == Ok(p) <==> SegmentSays(text, spec, p) {
      SegmentMeaning(text, spec, p);
    }
    if Accepts(text, spec) {
      assert SegmentSays(text, spec, ParseSegment(text, spec).value);
    }
  }

  /** A field is accepted iff each of its segments says something, and holds what some segment names. */
  lemma FieldMeaning(text: string, spec: FieldSpec)
    requires GoodSpec(spec) && NoSpaces(text)
    ensures var r := FieldSet(text, spec);
            && (r.Ok? <==> FieldAccepts(text, spec))
            && (r.Ok? ==> forall v :: v in r.value <==> FieldNames(text, spec, v))
  {
    FieldDenotation(text, spec);
    PartsHaveNoSpaces(text, ',');
    forall segment | segment in Split(text, ',')
      ensures Accepts(segment, spec) <==> SaysSomething(segment, spec)
      ensures forall v :: Denotes(segment, spec, v) <==> SegmentNames(segment, spec, v)
    {
      DenotesIff(segment, spec);
    }
  }

  // ----- an expression -----

  ghost predicate WordsAccepted(words: seq<string>)
    requires |words| == 5
  {
    && FieldAccepts(words[0], FieldSpec("minute", 0, 59, false))
    && FieldAccepts(words[1], FieldSpec("hour", 0, 23, false))
    && FieldAccepts(words[2], FieldSpec("dayOfMonth", 1, 31, false))
    && FieldAccepts(words[3], FieldSpec("month", 1, 12, false))
    && FieldAccepts(words[4], FieldSpec("dayOfWeek", 0, 6, true))
  }

  /** A minute, hour, day of the month, month and weekday that five words name. */
  ghost predicate WordsName(words: seq<string>, minute: nat, hour: nat, day: nat, month: nat, weekDay: nat)
    requires |words| == 5
  {
    && FieldNames(words[0], FieldSpec("minute", 0, 59, false), minute)
    && FieldNames(words[1], FieldSpec("hour", 0, 23, false), hour)
    && FieldNames(words[2], FieldSpec("dayOfMonth", 1, 31, false), day)
    && FieldNames(words[3], FieldSpec("month", 1, 12, false), month)
    && FieldNames(words[4], FieldSpec("dayOfWeek", 0, 6, true), weekDay)
  }

  predicate Admits(c: ParsedCron, minute: nat, hour: nat, day: nat, month: nat, weekDay: nat) {
    minute in c.minute && hour in c.hour && day in c.dayOfMonth && month in c.month && weekDay in c.dayOfWeek
  }

  lemma {:induction false} JoinedWords(words: seq<string>)
    requires AllWords(words)
    ensures Join(words, ' ') == "" <==> words == []
    ensures words != [] ==> Split(Join(words, ' '), ' ') == words
  {
    if words != [] {
      forall i | 0 <= i < |words| ensures ' ' !in words[i] {
        assert IsWord(words[i]);
      }
      SplitJoin(words, ' ');
    }
  }

  /** A text of words and gaps is accepted iff it has five words that are, and admits what they name; other
      numbers of words have errors of their own. */
  lemma ExpressionMeaning(gaps: seq<string>, words: seq<string>)
    requires |gaps| == |words| + 1 && AllWords(words) && AreGaps(gaps)
    ensures var r := CronOf(Spread(gaps, words));
            && (words == [] ==> r == Err(ExpressionRequired))
            && (words != [] && |words| != 5 ==> r == Err(FieldCount))
            && (|words| == 5 ==>
                  && (r.Ok? <==> WordsAccepted(words))
                  && (r.Ok? ==> forall minute, hour, day, month, weekDay ::
                        Admits(r.value, minute, hour, day, month, weekDay) <==>
                        WordsName(words, minute, hour, day, month, weekDay)))
  {
    NormalizeMeaning(gaps, words);
    JoinedWords(words);
    if |words| == 5 {
      assert IsWord(words[0]) && IsWord(words[1]) && IsWord(words[2]) && IsWord(words[3]) && IsWord(words[4]);
      FieldMeaning(words[0], MINUTE);
      FieldMeaning(words[1], HOUR);
      FieldMeaning(words[2], DAY_OF_MONTH);
      FieldMeaning(words[3], MONTH);
      FieldMeaning(words[4], DAY_OF_WEEK);
    }
  }

  /** Every text is one of words and gaps, so this is the meaning of every text. */
  lemma EveryExpression(text: string) returns (gaps: seq<string>, words: seq<string>)
    ensures |gaps| == |words| + 1 && AllWords(words) && AreGaps(gaps) && text == Spread(gaps, words)
  {
    gaps, words := HasWords(text);
  }
}
