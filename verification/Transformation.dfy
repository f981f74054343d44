/** Compiling a mapping, and what a compiled mapping makes of a record. */
module Transformation {
  import opened Common
  import opened Text
  import opened Json
  import opened Paths
  import opened Shuffle
  import opened Collecting

  /** Conversions of the JavaScript runtime that stay abstract, as a record of total functions. */
  datatype Host = Host(
    toText: Value -> string,
    toNumber: string -> Number,
    lower: string -> string,
    upper: string -> string,
    parseDate: string -> Option<int>,
    dateOfNumber: Number -> Option<int>,
    printDate: int -> string,
    entries: map<string, Value> -> seq<(string, Value)>)
  {
    /** Text of a text is itself, a printed date parses back, and entries list each property once. */
    ghost predicate Valid() {
      && (forall s :: toText(Str(s)) == s)
      && (forall t :: parseDate(printDate(t)) == Some(t))
      && (forall m :: Enumerates(entries(m), m))
    }
  }

  ghost predicate Enumerates(entries: seq<(string, Value)>, m: map<string, Value>) {
    && |entries| == |m|
    && (forall i :: 0 <= i < |entries| ==> entries[i].0 in m && m[entries[i].0] == entries[i].1)
    && (forall i, j :: 0 <= i < j < |entries| ==> entries[i].0 != entries[j].0)
  }

  datatype ErrorCode = MappingInvalid | RequiredFieldMissing | TypeCoercionFailed | UnsupportedType | PathUnsafe

  datatype TransformationError = TransformationError(field: string, code: ErrorCode, path: Option<string>)

  datatype Compute = Now | Uuid

  datatype Field = Field(
    outputPath: string, sourcePath: string, required: bool, hasDefault: bool, defaultValue: Value,
    typ: string, trim: bool, lowercase: bool, uppercase: bool, compute: Option<Compute>)

  const SUPPORTED_TYPES: set<string> := {"string", "number", "boolean", "date", "json"}

  // ----- compiling -----

  function CompileDefinition(outputPath: string, definition: map<string, Value>): Result<Field, TransformationError> {
    var path := Prop(definition, "path");
    var sourcePath := if path.Str? then Trim(path.s) else "";
    var compute := Prop(definition, "compute");
    var declared := Prop(definition, "type");
    var typ := if declared.Undefined? || declared.Null? then Str("json") else declared;
    if sourcePath == "" && compute.Undefined? then Err(TransformationError(outputPath, MappingInvalid, None))
    else if !SafePath(outputPath) || (sourcePath != "" && !SafePath(sourcePath)) then
      Err(TransformationError(outputPath, PathUnsafe, Some(sourcePath)))
    else if !typ.Str? || typ.s !in SUPPORTED_TYPES then
      Err(TransformationError(outputPath, UnsupportedType, Some(sourcePath)))
    else if !compute.Undefined? && compute != Str("now") && compute != Str("uuid") then
      Err(TransformationError(outputPath, MappingInvalid, Some(sourcePath)))
    else if Truthy(Prop(definition, "lowercase")) && Truthy(Prop(definition, "uppercase")) then
      Err(TransformationError(outputPath, MappingInvalid, Some(sourcePath)))
    else
      Ok(Field(outputPath, sourcePath, Prop(definition, "required") == Bool(true), "default" in definition,
               Prop(definition, "default"), typ.s, Prop(definition, "trim") == Bool(true),
               Prop(definition, "lowercase") == Bool(true), Prop(definition, "uppercase") == Bool(true),
               if compute.Undefined? then None else if compute == Str("now") then Some(Now) else Some(Uuid)))
  }

  function CompileCandidate(outputPath: string, value: Value): Result<Field, TransformationError> {
    match value
    case Str(source) =>
      if !SafePath(outputPath) || !SafePath(source) then
        Err(TransformationError(outputPath, PathUnsafe, Some(source)))
      else
        Ok(Field(outputPath, source, false, false, Undefined, "json", false, false, false, None))
    case Obj(definition) => CompileDefinition(outputPath, definition)
    case _ => Err(TransformationError(outputPath, MappingInvalid, None))
  }

  /** The mapping's own `fields` if it has them, else the mapping itself. */
  function Candidates(host: Host, mapping: map<string, Value>): Result<seq<(string, Value)>, TransformationError> {
    match Prop(mapping, "fields")
    case Undefined => Ok(host.entries(mapping))
    case Obj(fields) => Ok(host.entries(fields))
    case _ => Err(TransformationError("fields", MappingInvalid, None))
  }

  function Compiling(): ((string, Value)) -> Result<Field, TransformationError> {
    (candidate: (string, Value)) => CompileCandidate(candidate.0, candidate.1)
  }

  /** The compiled fields, or all errors at once. */
  function CompiledMapping(host: Host, mapping: map<string, Value>): Result<seq<Field>, seq<TransformationError>> {
    match Candidates(host, mapping)
    case Err(error) => Err([error])
    case Ok(candidates) =>
      if Errs(Compiling(), candidates) == [] then Ok(Oks(Compiling(), candidates))
      else Err(Errs(Compiling(), candidates))
  }

  method CompileMapping(host: Host, mapping: map<string, Value>)
    returns (r: Result<seq<Field>, seq<TransformationError>>)
    ensures r == CompiledMapping(host, mapping)
  {
    var errors: seq<TransformationError> := [];
    var fields: seq<Field> := [];
    var candidates: seq<(string, Value)> := [];
    match Candidates(host, mapping) {
      case Err(error) => errors := [error];
      case Ok(found) => candidates := found;
    }
    ghost var before := errors;
    for i := 0 to |candidates|
      invariant errors == before + Errs(Compiling(), candidates[..i])
      invariant fields == Oks(Compiling(), candidates[..i])
    {
      assert candidates[..i + 1][..i] == candidates[..i];
      var compiled := Compiling()(candidates[i]);
      match compiled {
        case Ok(field) => fields := fields + [field];
        case Err(error) => errors := errors + [error];
      }
    }
    assert candidates[..|candidates|] == candidates;
    assert before == [] ==> errors == Errs(Compiling(), candidates);
    assert candidates == [] ==> errors == before;
    if errors != [] {
      return Err(errors);
    }
    return Ok(fields);
  }

  /** What compilation guarantees of a field. */
  predicate CompiledField(field: Field) {
    && SafePath(field.outputPath)
    && (field.compute.None? ==> SafePath(field.sourcePath))
    && field.typ in SUPPORTED_TYPES
    && !(field.lowercase && field.uppercase)
  }

  predicate AllCompiled(fields: seq<Field>) {
    forall i :: 0 <= i < |fields| ==> CompiledField(fields[i])
  }

  lemma CandidateCompiles(outputPath: string, value: Value)
    requires CompileCandidate(outputPath, value).Ok?
    ensures var field := CompileCandidate(outputPath, value).value;
            field.outputPath == outputPath && CompiledField(field)
  {
  }

  /** A mapping compiles iff its candidates are an object whose entries all compile; then the fields
      follow the entries one by one, and each is safe to run. */
  lemma CompileSound(host: Host, mapping: map<string, Value>)
    ensures var r := CompiledMapping(host, mapping); var c := Candidates(host, mapping);
            && (r.Ok? <==> c.Ok? && forall i :: 0 <= i < |c.value| ==> Compiling()(c.value[i]).Ok?)
            && (r.Err? ==> r.error != [])
            && (r.Ok? ==> |r.value| == |c.value| && AllCompiled(r.value))
            && (r.Ok? ==> forall i :: 0 <= i < |c.value| ==>
                  r.value[i].outputPath == c.value[i].0 && Compiling()(c.value[i]) == Ok(r.value[i]))
  {
    match Candidates(host, mapping)
    case Err(_) =>
    case Ok(candidates) =>
      OneEach(Compiling(), candidates);
      if Errs(Compiling(), candidates) == [] {
        forall i | 0 <= i < |candidates|
          ensures CompiledField(Oks(Compiling(), candidates)[i])
          ensures Oks(Compiling(), candidates)[i].outputPath == candidates[i].0
        {
          assert Compiling()(candidates[i]) == Ok(Oks(Compiling(), candidates)[i]);
          CandidateCompiles(candidates[i].0, candidates[i].1);
        }
      }
  }

  // ----- running -----

  predicate Missing(v: Value) {
    v.Undefined? || v.Null? || (v.Str? && Trim(v.s) == "")
  }

  function TextCase(host: Host, text: string, field: Field): string {
    var trimmed := if field.trim then Trim(text) else text;
    var lowered := if field.lowercase then host.lower(trimmed) else trimmed;
    if field.uppercase then host.upper(lowered) else lowered
  }

  function Coerce(host: Host, v: Value, field: Field): Option<Value> {
    match field.typ
    case "json" => Some(v)
    case "string" => Some(Str(TextCase(host, host.toText(v), field)))
    case "number" =>
      var candidate := match v
        case Num(n) => n
        case Str(s) => host.toNumber(Trim(s))
        case _ => NaN;
      if candidate.Finite? then Some(Num(candidate)) else None
    case "boolean" =>
      (match v
       case Bool(b) => Some(v)
       case Num(n) =>
         if n == Finite(1.0) then Some(Bool(true)) else if n == Finite(0.0) then Some(Bool(false)) else None
       case Str(s) =>
         var normalized := host.lower(Trim(s));
         if normalized in ["true", "1", "yes"] then Some(Bool(true))
         else if normalized in ["false", "0", "no"] then Some(Bool(false))
         else None
       case _ => None)
    case "date" =>
      (match host.parseDate(host.toText(v))
       case Some(t) => Some(Str(host.printDate(t)))
       case None => None)
    case _ => None
  }

  /** A value of the declared type, as the target will see it. */
  ghost predicate HasType(host: Host, v: Value, typ: string) {
    match typ
    case "string" => v.Str?
    case "number" => v.Num? && v.n.Finite?
    case "boolean" => v.Bool?
    case "date" => exists t :: v == Str(host.printDate(t)) && host.parseDate(v.s) == Some(t)
    case _ => true
  }

  lemma CoerceHasType(host: Host, v: Value, field: Field)
    requires host.Valid() && Coerce(host, v, field).Some?
    ensures HasType(host, Coerce(host, v, field).value, field.typ)
  {
  }

  /** Coercing a coerced value again changes nothing; letter case is the runtime's business. */
  lemma CoerceIdempotent(host: Host, v: Value, field: Field)
    requires host.Valid() && Coerce(host, v, field).Some? && !field.lowercase && !field.uppercase
    ensures Coerce(host, Coerce(host, v, field).value, field) == Coerce(host, v, field)
  {
    var w := Coerce(host, v, field).value;
    if field.typ == "string" {
      TrimIdempotent(host.toText(v));
      assert host.toText(w) == w.s;
    } else if field.typ == "date" {
      assert host.toText(w) == w.s;
    }
  }

  type Path = path: seq<string> | path != [] witness [""]

  datatype FieldResult = Written(target: Path, value: Value) | Left | Failed(error: TransformationError)

  function SourceValue(raw: map<string, Value>, field: Field, generated: string -> string): Result<Value, PathError> {
    if field.compute.Some? then Ok(Str(generated(field.outputPath)))
    else
      var source :- AssertSafePath(field.sourcePath);
      Ok(Get(Obj(raw), source))
  }

  /** What one field does; an error is an exception that leaves the whole transformation. */
  function RunField(host: Host, raw: map<string, Value>, field: Field, generated: string -> string)
    : Result<FieldResult, PathError>
  {
    var found :- SourceValue(raw, field, generated);
    var current := if Missing(found) && field.hasDefault then field.defaultValue else found;
    if Missing(current) then
      Ok(if field.required
         then Failed(TransformationError(field.outputPath, RequiredFieldMissing, Some(field.sourcePath)))
         else Left)
    else match Coerce(host, current, field)
      case None => Ok(Failed(TransformationError(field.outputPath, TypeCoercionFailed, Some(field.sourcePath))))
      case Some(value) =>
        var target :- AssertSafePath(field.outputPath);
        Ok(Written(target, value))
  }

  datatype Transformed = Transformed(normalized: map<string, Value>, errors: seq<TransformationError>)

  /** All fields, left to right, each run by `run`. */
  function RunFields(run: Field -> Result<FieldResult, PathError>, fields: seq<Field>): Result<Transformed, PathError> {
    if fields == [] then Ok(Transformed(map[], []))
    else
      var before :- RunFields(run, fields[..|fields| - 1]);
      var result :- run(fields[|fields| - 1]);
      Ok(Extended(before, result))
  }

  function Extended(before: Transformed, result: FieldResult): Transformed {
    match result
    case Left => before
    case Failed(error) => before.(errors := before.errors + [error])
    case Written(target, value) => before.(normalized := Set(before.normalized, target, value))
  }

  function Running(host: Host, raw: map<string, Value>, generated: string -> string)
    : Field -> Result<FieldResult, PathError>
  {
    (field: Field) => RunField(host, raw, field, generated)
  }

  function TransformRecord(host: Host, raw: map<string, Value>, fields: seq<Field>, generated: string -> string)
    : Result<Transformed, PathError>
  {
    RunFields(Running(host, raw, generated), fields)
  }

  // ----- what a compiled mapping guarantees on every record -----

  ghost predicate RunsWell(run: Field -> Result<FieldResult, PathError>, field: Field) {
    && SplitPath(field.outputPath) != []
    && run(field).Ok?
    && (run(field).value.Written? ==> run(field).value.target == SplitPath(field.outputPath))
  }

  lemma CompiledFieldRuns(host: Host, raw: map<string, Value>, field: Field, generated: string -> string)
    requires CompiledField(field)
    ensures RunsWell(Running(host, raw, generated), field)
  {
  }

  function ResultFor(run: Field -> Result<FieldResult, PathError>, field: Field): FieldResult {
    match run(field)
    case Ok(result) => result
    case Err(_) => Left
  }

  function WriteFor(run: Field -> Result<FieldResult, PathError>, field: Field): Write {
    var result := ResultFor(run, field);
    Write(SplitPath(field.outputPath), if result.Written? then Some(result.value) else None)
  }

  function ResultOf(run: Field -> Result<FieldResult, PathError>): Field -> FieldResult {
    (field: Field) => ResultFor(run, field)
  }

  function WriteOf(run: Field -> Result<FieldResult, PathError>): Field -> Write {
    (field: Field) => WriteFor(run, field)
  }

  function FailuresOf(results: seq<FieldResult>): seq<TransformationError> {
    if results == [] then [] else FailuresOf(results[..|results| - 1]) + FailureIn(results[|results| - 1])
  }

  function FailureIn(result: FieldResult): seq<TransformationError> {
    if result.Failed? then [result.error] else []
  }

  lemma FailuresGrow(results: seq<FieldResult>, last: FieldResult)
    ensures multiset(FailuresOf(results + [last])) == multiset(FailuresOf(results)) + multiset(FailureIn(last))
  {
  }

  lemma {:induction false} OneFailureOut(results: seq<FieldResult>, k: nat)
    requires k < |results|
    ensures multiset(FailuresOf(results)) == multiset(FailuresOf(Without(results, k))) + multiset(FailureIn(results[k]))
  {
    var n := |results| - 1;
    var before, last := results[..n], results[n];
    assert results == before + [last];
    FailuresGrow(before, last);
    if k == n {
      assert Without(results, k) == before;
    } else {
      var failed, rest := FailureIn(before[k]), Without(before, k);
      OneFailureOut(before, k);
      FailuresGrow(rest, last);
      WithoutInner(results, k);
      assert FailureIn(results[k]) == failed;
    }
  }

  lemma {:induction false} FailuresInAnyOrder(results: seq<FieldResult>, shuffled: seq<FieldResult>)
    requires multiset(results) == multiset(shuffled)
    ensures multiset(FailuresOf(results)) == multiset(FailuresOf(shuffled))
    decreases |shuffled|
  {
    if shuffled == [] {
      assert results == [];
    } else {
      var n := |shuffled| - 1;
      var k := HeldSomewhere(results, shuffled);
      SameRest(results, k, shuffled);
      OneFailureOut(results, k);
      FailuresInAnyOrder(Without(results, k), shuffled[..n]);
    }
  }

  lemma WritesAreGood(run: Field -> Result<FieldResult, PathError>, fields: seq<Field>)
    requires forall i :: 0 <= i < |fields| ==> RunsWell(run, fields[i])
    ensures GoodWrites(Map(WriteOf(run), fields))
  {
  }

  lemma {:induction false} RunFieldsBuilds(run: Field -> Result<FieldResult, PathError>, fields: seq<Field>)
    requires forall i :: 0 <= i < |fields| ==> RunsWell(run, fields[i])
    requires GoodWrites(Map(WriteOf(run), fields))
    ensures RunFields(run, fields) ==
            Ok(Transformed(Build(Map(WriteOf(run), fields)), FailuresOf(Map(ResultOf(run), fields))))
  {
    if fields == [] {
    } else {
      var n := |fields| - 1;
      var writes, results := Map(WriteOf(run), fields), Map(ResultOf(run), fields);
      assert writes[..n] == Map(WriteOf(run), fields[..n]);
      assert results[..n] == Map(ResultOf(run), fields[..n]);
      RunFieldsBuilds(run, fields[..n]);
      ExtendedByOne(run, fields[n], Transformed(Build(writes[..n]), FailuresOf(results[..n])));
      assert writes[n] == WriteFor(run, fields[n]) && results[n] == ResultFor(run, fields[n]);
    }
  }

  lemma ExtendedByOne(run: Field -> Result<FieldResult, PathError>, field: Field, before: Transformed)
    requires RunsWell(run, field)
    ensures Extended(before, run(field).value) ==
            Transformed(Apply(before.normalized, WriteFor(run, field)),
                        before.errors + FailureIn(ResultFor(run, field)))
  {
  }

  /** A compiled mapping never throws, whatever the record; its output is the fields' writes in order,
      and its errors are the fields' failures in order. */
  lemma CompiledNeverThrows(host: Host, raw: map<string, Value>, fields: seq<Field>, generated: string -> string)
    requires AllCompiled(fields)
    ensures var run := Running(host, raw, generated);
            && GoodWrites(Map(WriteOf(run), fields))
            && TransformRecord(host, raw, fields, generated) ==
               Ok(Transformed(Build(Map(WriteOf(run), fields)), FailuresOf(Map(ResultOf(run), fields))))
            && forall i :: 0 <= i < |fields| ==> RunsWell(run, fields[i])
  {
    var run := Running(host, raw, generated);
    forall i | 0 <= i < |fields| ensures RunsWell(run, fields[i]) {
      CompiledFieldRuns(host, raw, fields[i], generated);
    }
    WritesAreGood(run, fields);
    RunFieldsBuilds(run, fields);
  }

  ghost predicate Apart(f: Field, g: Field) {
    Incomparable(SplitPath(f.outputPath), SplitPath(g.outputPath))
  }

  ghost predicate PairwiseApart(fields: seq<Field>) {
    forall j, k :: 0 <= j < k < |fields| ==> Apart(fields[j], fields[k])
  }

  lemma ApartFromOthers(fields: seq<Field>, i: nat)
    requires PairwiseApart(fields) && i < |fields|
    ensures forall j :: 0 <= j < |fields| && j != i ==> Apart(fields[j], fields[i])
  {
    forall j | 0 <= j < |fields| && j != i ensures Apart(fields[j], fields[i]) {
      if i < j {
        assert Apart(fields[i], fields[j]);
        IncomparableMeaning(SplitPath(fields[i].outputPath), SplitPath(fields[j].outputPath));
      }
    }
  }

  function ValueWritten(run: Field -> Result<FieldResult, PathError>, field: Field): Value {
    match run(field) case Ok(Written(_, v)) => v case _ => Undefined
  }

  lemma WriteOfField(run: Field -> Result<FieldResult, PathError>, field: Field)
    ensures WriteOf(run)(field).path == SplitPath(field.outputPath)
    ensures WriteOf(run)(field).value.GetOr(Undefined) == ValueWritten(run, field)
  {
  }

  /** The order of the fields does not matter when their output paths are pairwise incomparable: the output is
      the same, and the same errors come in another order. */
  lemma FieldOrderIrrelevant(host: Host, raw: map<string, Value>, fields: seq<Field>, shuffled: seq<Field>,
                             generated: string -> string)
    requires AllCompiled(fields) && AllCompiled(shuffled) && multiset(fields) == multiset(shuffled)
    requires PairwiseApart(fields)
    ensures var r := TransformRecord(host, raw, fields, generated);
            var s := TransformRecord(host, raw, shuffled, generated);
            && r.Ok? && s.Ok? && r.value.normalized == s.value.normalized
            && multiset(r.value.errors) == multiset(s.value.errors)
  {
    CompiledNeverThrows(host, raw, fields, generated);
    CompiledNeverThrows(host, raw, shuffled, generated);
    var run := Running(host, raw, generated);
    MapKeepsElements(WriteOf(run), fields, shuffled);
    MapKeepsElements(ResultOf(run), fields, shuffled);
    FailuresInAnyOrder(Map(ResultOf(run), fields), Map(ResultOf(run), shuffled));
    var writes := Map(WriteOf(run), fields);
    assert PairwiseIncomparable(writes) by {
      forall j, k | 0 <= j < k < |writes| ensures Incomparable(writes[j].path, writes[k].path) {
        assert Apart(fields[j], fields[k]);
      }
    }
    BuildAnyOrder(writes, Map(WriteOf(run), shuffled));
  }
}
