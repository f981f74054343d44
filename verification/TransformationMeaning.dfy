/** What a mapping asks for, from its JSON to the output of a record, told without running it. */
module TransformationMeaning {
  import opened Common
  import opened Text
  import opened Json
  import opened Paths
  import opened Shuffle
  import opened Transformation

  // ----- one value -----

  /** A text, trimmed and in the letter case that the field asks for. */
  ghost predicate TextSays(host: Host, s: string, field: Field, w: string) {
    exists t :: (if field.trim then TrimmedTo(s, t) else t == s) && CaseSays(host, t, field, w)
  }

  predicate CaseSays(host: Host, t: string, field: Field, w: string) {
    match (field.lowercase, field.uppercase)
    case (false, false) => w == t
    case (true, false) => w == host.lower(t)
    case (false, true) => w == host.upper(t)
    case (true, true) => w == host.upper(host.lower(t))
  }

  /** A finite number, or a text that is one but for the spaces at its ends. */
  ghost predicate NumberSays(host: Host, v: Value, r: real) {
    match v
    case Num(n) => n == Finite(r)
    case Str(s) => exists t :: TrimmedTo(s, t) && host.toNumber(t) == Finite(r)
    case _ => false
  }

  ghost predicate BooleanSays(host: Host, v: Value, b: bool) {
    match v
    case Bool(c) => c == b
    case Num(n) => n == Finite(if b then 1.0 else 0.0)
    case Str(s) =>
      exists t :: TrimmedTo(s, t) && host.lower(t) in if b then {"true", "1", "yes"} else {"false", "0", "no"}
    case _ => false
  }

  /** `w` is `v` as a value of the field's type. */
  ghost predicate Stands(host: Host, v: Value, field: Field, w: Value) {
    match field.typ
    case "json" => w == v
    case "string" => w.Str? && TextSays(host, host.toText(v), field, w.s)
    case "number" => w.Num? && w.n.Finite? && NumberSays(host, v, w.n.r)
    case "boolean" => w.Bool? && BooleanSays(host, v, w.b)
    case "date" => exists t :: host.parseDate(host.toText(v)) == Some(t) && w == Str(host.printDate(t))
    case _ => false
  }

  lemma TextMeaning(host: Host, s: string, field: Field, w: string)
    ensures TextSays(host, s, field, w) <==> w == TextCase(host, s, field)
  {
    forall t ensures TrimmedTo(s, t) <==> t == Trim(s) {
      TrimMeaning(s, t);
    }
    assert CaseSays(host, if field.trim then Trim(s) else s, field, TextCase(host, s, field));
  }

  lemma BooleanMeaning(host: Host, v: Value, field: Field, b: bool)
    requires field.typ == "boolean"
    ensures Coerce(host, v, field) == Some(Bool(b)) <==> BooleanSays(host, v, b)
  {
    if v.Str? {
      forall t ensures TrimmedTo(v.s, t) <==> t == Trim(v.s) {
        TrimMeaning(v.s, t);
      }
    }
  }

  lemma NumberMeaning(host: Host, v: Value, field: Field, r: real)
    requires field.typ == "number"
    ensures Coerce(host, v, field) == Some(Num(Finite(r))) <==> NumberSays(host, v, r)
  {
    if v.Str? {
      forall t ensures TrimmedTo(v.s, t) <==> t == Trim(v.s) {
        TrimMeaning(v.s, t);
      }
    }
  }

  lemma DateMeaning(host: Host, v: Value, field: Field, w: Value)
    requires field.typ == "date"
    ensures Coerce(host, v, field) == Some(w) <==> Stands(host, v, field, w)
  {
  }

  /** Coercion gives what stands for the value in the field's type, and refuses a value that nothing stands for. */
  lemma CoerceMeaning(host: Host, v: Value, field: Field, w: Value)
    ensures Coerce(host, v, field) == Some(w) <==> Stands(host, v, field, w)
  {
    match field.typ
    case "string" =>
      if w.Str? {
        TextMeaning(host, host.toText(v), field, w.s);
      }
    case "number" =>
      if w.Num? && w.n.Finite? {
        NumberMeaning(host, v, field, w.n.r);
      }
    case "boolean" =>
      if w.Bool? {
        BooleanMeaning(host, v, field, w.b);
      }
    case "date" => DateMeaning(host, v, field, w);
    case _ =>
  }

  // ----- one field -----

  predicate IsMissing(v: Value) {
    v.Undefined? || v.Null? || (v.Str? && AllSpaces(v.s))
  }

  lemma MissingMeaning(v: Value)
    ensures Missing(v) <==> IsMissing(v)
  {
    if v.Str? {
      TrimEmptyIff(v.s);
    }
  }

  /** The value at the source path, or the computed one; the default if that is missing and there is one. */
  function Given(raw: map<string, Value>, field: Field, generated: string -> string): Value {
    var found := if field.compute.Some? then Str(generated(field.outputPath))
                 else Get(Obj(raw), SplitPath(field.sourcePath));
    if IsMissing(found) && field.hasDefault then field.defaultValue else found
  }

  /** What a field leaves at its output path, and how it fails. */
  ghost predicate FieldSays(host: Host, raw: map<string, Value>, field: Field, generated: string -> string,
                            held: Value, failure: Option<ErrorCode>) {
    var given := Given(raw, field, generated);
    if IsMissing(given) then
      held == Undefined && failure == if field.required then Some(RequiredFieldMissing) else None
    else if exists w :: Stands(host, given, field, w) then Stands(host, given, field, held) && failure == None
    else held == Undefined && failure == Some(TypeCoercionFailed)
  }

  function FailureOf(result: FieldResult): Option<ErrorCode> {
    if result.Failed? then Some(result.error.code) else None
  }

  lemma GivenIs(raw: map<string, Value>, field: Field, generated: string -> string)
    requires CompiledField(field)
    ensures var found := SourceValue(raw, field, generated);
            && found.Ok?
            && Given(raw, field, generated) ==
               if Missing(found.value) && field.hasDefault then field.defaultValue else found.value
  {
    MissingMeaning(SourceValue(raw, field, generated).value);
  }

  lemma FieldMeaning(host: Host, raw: map<string, Value>, field: Field, generated: string -> string)
    requires CompiledField(field)
    ensures var run := Running(host, raw, generated); var result := ResultFor(run, field);
            && FieldSays(host, raw, field, generated, ValueWritten(run, field), FailureOf(result))
            && (result.Failed? ==>
                  result.error == TransformationError(field.outputPath, result.error.code, Some(field.sourcePath)))
  {
    GivenIs(raw, field, generated);
    var given := Given(raw, field, generated);
    MissingMeaning(given);
    CoerceMeaning(host, given, field, Coerce(host, given, field).GetOr(Undefined));
    if w :| Stands(host, given, field, w) {
      CoerceMeaning(host, given, field, w);
    }
  }

  // ----- one record -----

  /** The failures of the fields, in order. */
  function Failures(fields: seq<Field>, failures: seq<Option<ErrorCode>>): seq<TransformationError>
    requires |fields| == |failures|
  {
    if fields == [] then []
    else
      var n := |fields| - 1;
      Failures(fields[..n], failures[..n]) +
      match failures[n]
      case Some(code) => [TransformationError(fields[n].outputPath, code, Some(fields[n].sourcePath))]
      case None => []
  }

  function FailuresBy(run: Field -> Result<FieldResult, PathError>, fields: seq<Field>): (r: seq<Option<ErrorCode>>)
    ensures |r| == |fields| && forall i :: 0 <= i < |r| ==> r[i] == FailureOf(ResultFor(run, fields[i]))
  {
    seq(|fields|, i requires 0 <= i < |fields| => FailureOf(ResultFor(run, fields[i])))
  }

  ghost predicate NamesItself(run: Field -> Result<FieldResult, PathError>, field: Field) {
    var result := ResultFor(run, field);
    result.Failed? ==>
      result.error == TransformationError(field.outputPath, result.error.code, Some(field.sourcePath))
  }

  lemma {:induction false} FailuresInOrder(run: Field -> Result<FieldResult, PathError>, fields: seq<Field>)
    requires forall i :: 0 <= i < |fields| ==> NamesItself(run, fields[i])
    ensures FailuresOf(Map(ResultOf(run), fields)) == Failures(fields, FailuresBy(run, fields))
  {
    if fields != [] {
      var n := |fields| - 1;
      FailuresInOrder(run, fields[..n]);
      assert Map(ResultOf(run), fields)[..n] == Map(ResultOf(run), fields[..n]);
      assert FailuresBy(run, fields)[..n] == FailuresBy(run, fields[..n]);
      assert NamesItself(run, fields[n]);
    }
  }

  /** The output of a compiled mapping is built from the writes of its fields, in order: each writes what it asks
      for at its output path, or nothing; its errors are those of the fields, in order. */
  lemma RecordMeaning(host: Host, raw: map<string, Value>, fields: seq<Field>, generated: string -> string)
    returns (writes: seq<Write>, failures: seq<Option<ErrorCode>>)
    requires AllCompiled(fields)
    ensures |writes| == |failures| == |fields| && GoodWrites(writes)
    ensures forall i :: 0 <= i < |fields| ==>
              && writes[i].path == SplitPath(fields[i].outputPath)
              && FieldSays(host, raw, fields[i], generated, writes[i].value.GetOr(Undefined), failures[i])
    ensures TransformRecord(host, raw, fields, generated) ==
            Ok(Transformed(Build(writes), Failures(fields, failures)))
  {
    var run := Running(host, raw, generated);
    writes, failures := Map(WriteOf(run), fields), FailuresBy(run, fields);
    CompiledNeverThrows(host, raw, fields, generated);
    forall i | 0 <= i < |fields|
      ensures NamesItself(run, fields[i]) && writes[i].path == SplitPath(fields[i].outputPath)
      ensures FieldSays(host, raw, fields[i], generated, writes[i].value.GetOr(Undefined), failures[i])
    {
      FieldMeaning(host, raw, fields[i], generated);
      WriteOfField(run, fields[i]);
    }
    FailuresInOrder(run, fields);
  }

  lemma StandingHasType(host: Host, v: Value, field: Field, w: Value)
    requires host.Valid() && Stands(host, v, field, w)
    ensures HasType(host, w, field.typ)
  {
    CoerceMeaning(host, v, field, w);
    CoerceHasType(host, v, field);
  }

  /** If the output paths are pairwise incomparable, each of them holds what its field asks for, in a value of the
      declared type, and there is nothing elsewhere. */
  lemma FieldwiseCorrect(host: Host, raw: map<string, Value>, fields: seq<Field>, generated: string -> string)
    returns (failures: seq<Option<ErrorCode>>)
    requires host.Valid() && AllCompiled(fields) && PairwiseApart(fields)
    ensures |failures| == |fields|
    ensures var r := TransformRecord(host, raw, fields, generated);
            && r.Ok? && r.value.errors == Failures(fields, failures)
            && (forall i :: 0 <= i < |fields| ==>
                  var held := Get(Obj(r.value.normalized), SplitPath(fields[i].outputPath));
                  && FieldSays(host, raw, fields[i], generated, held, failures[i])
                  && (held != Undefined ==> HasType(host, held, fields[i].typ)))
            && (forall q :: q != [] && (forall i :: 0 <= i < |fields| ==>
                                          Incomparable(SplitPath(fields[i].outputPath), q)) ==>
                  Get(Obj(r.value.normalized), q) == Undefined)
  {
    var writes;
    writes, failures := RecordMeaning(host, raw, fields, generated);
    forall i | 0 <= i < |fields|
      ensures var held := Get(Obj(Build(writes)), SplitPath(fields[i].outputPath));
              && FieldSays(host, raw, fields[i], generated, held, failures[i])
              && (held != Undefined ==> HasType(host, held, fields[i].typ))
    {
      ApartFromOthers(fields, i);
      forall j | 0 <= j < |writes| && j != i ensures Incomparable(writes[j].path, writes[i].path) {
        assert Apart(fields[j], fields[i]);
      }
      BuildHoldsOwn(writes, i);
      if writes[i].value.GetOr(Undefined) != Undefined {
        StandingHasType(host, Given(raw, fields[i], generated), fields[i], writes[i].value.value);
      }
    }
    forall q | q != [] && forall i :: 0 <= i < |fields| ==> Incomparable(SplitPath(fields[i].outputPath), q)
      ensures Get(Obj(Build(writes)), q) == Undefined
    {
      forall i | 0 <= i < |writes| ensures Incomparable(writes[i].path, q) {
        assert writes[i].path == SplitPath(fields[i].outputPath);
      }
      BuildUntouched(writes, q);
    }
  }

  // ----- what a mapping's JSON asks for -----

  /** The source path of a definition: its `path` without the spaces at its ends, or none. */
  ghost predicate SourceSays(definition: map<string, Value>, source: string) {
    match Prop(definition, "path")
    case Str(path) => TrimmedTo(path, source)
    case _ => source == ""
  }

  ghost predicate TypeSays(definition: map<string, Value>, typ: string) {
    match Prop(definition, "type")
    case Undefined => typ == "json"
    case Null => typ == "json"
    case declared => declared == Str(typ)
  }

  predicate ComputeSays(definition: map<string, Value>, compute: Option<Compute>) {
    Prop(definition, "compute") ==
    match compute
    case None => Undefined
    case Some(Now) => Str("now")
    case Some(Uuid) => Str("uuid")
  }

  /** A definition that asks for something that can be done. */
  ghost predicate DefinitionAccepted(outputPath: string, definition: map<string, Value>) {
    && SafePath(outputPath)
    && (exists compute :: ComputeSays(definition, compute))
    && (exists source :: SourceSays(definition, source) &&
          if source == "" then !ComputeSays(definition, None) else SafePath(source))
    && (exists typ :: TypeSays(definition, typ) && typ in {"string", "number", "boolean", "date", "json"})
    && !(Truthy(Prop(definition, "lowercase")) && Truthy(Prop(definition, "uppercase")))
  }

  /** The field that a definition asks for. */
  ghost predicate DefinitionSays(outputPath: string, definition: map<string, Value>, field: Field) {
    && field.outputPath == outputPath && SourceSays(definition, field.sourcePath)
    && (field.required <==> Prop(definition, "required") == Bool(true))
    && (field.hasDefault <==> "default" in definition)
    && (field.hasDefault ==> field.defaultValue == definition["default"])
    && TypeSays(definition, field.typ)
    && (field.trim <==> Prop(definition, "trim") == Bool(true))
    && (field.lowercase <==> Prop(definition, "lowercase") == Bool(true))
    && (field.uppercase <==> Prop(definition, "uppercase") == Bool(true))
    && ComputeSays(definition, field.compute)
  }

  /** The shorthand: a path, copied as it is. */
  predicate ShorthandSays(outputPath: string, source: string, field: Field) {
    && field.outputPath == outputPath && field.sourcePath == source && field.typ == "json"
    && !field.required && !field.hasDefault && field.compute == None
    && !field.trim && !field.lowercase && !field.uppercase
  }

  lemma SourceMeaning(definition: map<string, Value>, source: string)
    ensures SourceSays(definition, source) <==>
            source == var path := Prop(definition, "path"); if path.Str? then Trim(path.s) else ""
  {
    if Prop(definition, "path").Str? {
      TrimMeaning(Prop(definition, "path").s, source);
    }
  }

  lemma DefinitionMeaning(outputPath: string, definition: map<string, Value>)
    ensures var r := CompileDefinition(outputPath, definition);
            && (r.Ok? <==> DefinitionAccepted(outputPath, definition))
            && (r.Ok? ==> DefinitionSays(outputPath, definition, r.value))
  {
    forall source ensures SourceSays(definition, source) <==>
                          source == var path := Prop(definition, "path"); if path.Str? then Trim(path.s) else "" {
      SourceMeaning(definition, source);
    }
    var r := CompileDefinition(outputPath, definition);
    if r.Ok? {
      assert SourceSays(definition, r.value.sourcePath) && TypeSays(definition, r.value.typ);
      assert ComputeSays(definition, r.value.compute);
    }
    if DefinitionAccepted(outputPath, definition) {
      var source :| SourceSays(definition, source) &&
                    if source == "" then !ComputeSays(definition, None) else SafePath(source);
      var typ :| TypeSays(definition, typ) && typ in {"string", "number", "boolean", "date", "json"};
      var compute :| ComputeSays(definition, compute);
    }
  }

  /** A candidate compiles iff it is a pair of safe paths or a definition that is accepted, and then to the field
      that it asks for. */
  lemma CandidateMeaning(outputPath: string, value: Value)
    ensures var r := CompileCandidate(outputPath, value);
            match value
            case Str(source) =>
              && (r.Ok? <==> SafePath(outputPath) && SafePath(source))
              && (r.Ok? ==> ShorthandSays(outputPath, source, r.value))
            case Obj(definition) =>
              && (r.Ok? <==> DefinitionAccepted(outputPath, definition))
              && (r.Ok? ==> DefinitionSays(outputPath, definition, r.value))
            case _ => r == Err(TransformationError(outputPath, MappingInvalid, None))
  {
    if value.Obj? {
      DefinitionMeaning(outputPath, value.props);
    }
  }

  /** The candidates of a mapping are the properties of its `fields`, or its own if it has none, each once. */
  lemma CandidatesMeaning(host: Host, mapping: map<string, Value>)
    requires host.Valid()
    ensures match Prop(mapping, "fields")
            case Undefined => Candidates(host, mapping).Ok? && Enumerates(Candidates(host, mapping).value, mapping)
            case Obj(fields) => Candidates(host, mapping).Ok? && Enumerates(Candidates(host, mapping).value, fields)
            case _ => CompiledMapping(host, mapping) == Err([TransformationError("fields", MappingInvalid, None)])
  {
  }
}
