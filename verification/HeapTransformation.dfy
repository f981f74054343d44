/**
 The transformation as the source runs it: it reads from the record on the heap and writes into a new
 object in place. It computes what `Transformation.TransformRecord` says, and it touches no object that
 existed before the call.
 */
module HeapTransformation {
  import opened Common
  import opened Json
  import opened Paths
  import opened Transformation
  import opened JsObjects

  /** A compiled field with its default as it sits on the heap, inside the mapping. */
  datatype HeapField = HeapField(field: Field, default: HeapValue)

  ghost predicate GoodField(f: HeapField, world: set<JsObject>)
    reads world
  {
    match f.default
    case Leaf(v) => !v.Obj? && v == f.field.defaultValue
    case Ref(o) => o in world && o.repr <= world && o.Valid() && Obj(o.shape) == f.field.defaultValue
  }

  /** The record and the mapping's defaults, made of objects of `world`. */
  ghost predicate Inputs(raw: JsObject, fields: seq<HeapField>, world: set<JsObject>)
    reads world
  {
    && raw in world && raw.repr <= world && raw.Valid()
    && forall f :: f in fields ==> GoodField(f, world)
  }

  function Plain(fields: seq<HeapField>): (plain: seq<Field>)
    ensures |plain| == |fields| && forall i :: 0 <= i < |fields| ==> plain[i] == fields[i].field
  {
    seq(|fields|, i requires 0 <= i < |fields| => fields[i].field)
  }

  predicate MissingOnHeap(h: HeapValue) {
    h.Leaf? && Missing(h.v)
  }

  lemma CoercedIsScalar(host: Host, v: Value, field: Field)
    requires Coerce(host, v, field).Some? && field.typ != "json"
    ensures !Coerce(host, v, field).value.Obj?
  {
  }

  /** A coerced value of type json is a clone, one of any other type is a scalar: neither shares an
      object with the record. */
  method CoerceOnHeap(host: Host, h: HeapValue, field: Field) returns (r: Option<HeapValue>)
    requires GoodValue(h)
    ensures r.Some? <==> Coerce(host, ValueOf(h), field).Some?
    ensures r.Some? ==> GoodValue(r.value) && fresh(ReprOf(r.value))
    ensures r.Some? ==> Some(ValueOf(r.value)) == Coerce(host, ValueOf(h), field)
  {
    if field.typ == "json" {
      var copy := StructuredClone(h);
      return Some(copy);
    }
    var v: Value;
    match h {
      case Leaf(leaf) => v := leaf;
      case Ref(o) =>
        var m := o.Snapshot();
        v := Obj(m);
    }
    var coerced := Coerce(host, v, field);
    if coerced.None? {
      return None;
    }
    CoercedIsScalar(host, v, field);
    return Some(Leaf(coerced.value));
  }

  method SourceOnHeap(raw: JsObject, field: Field, generated: string -> string)
    returns (r: Result<HeapValue, PathError>)
    requires raw.Valid()
    ensures r.Err? ==> SourceValue(raw.shape, field, generated) == Err(r.error)
    ensures r.Ok? ==> GoodValue(r.value) && SourceValue(raw.shape, field, generated) == Ok(ValueOf(r.value))
  {
    if field.compute.Some? {
      return Ok(Leaf(Str(generated(field.outputPath))));
    }
    r := GetByPath(raw, field.sourcePath);
  }

  /** One pass of the loop, up to the write: what to write, or that there is nothing to write. */
  datatype Pending = ToWrite(target: Path, value: HeapValue) | Nothing | Failure(error: TransformationError)

  method RunFieldOnHeap(host: Host, raw: JsObject, f: HeapField, generated: string -> string,
                        ghost world: set<JsObject>)
    returns (r: Result<Pending, PathError>)
    requires raw.Valid() && GoodField(f, world)
    ensures match RunField(host, raw.shape, f.field, generated)
            case Err(error) => r == Err(error)
            case Ok(Left) => r == Ok(Nothing)
            case Ok(Failed(error)) => r == Ok(Failure(error))
            case Ok(Written(target, value)) =>
              r.Ok? && r.value.ToWrite? && r.value.target == target
              && GoodValue(r.value.value) && fresh(ReprOf(r.value.value)) && ValueOf(r.value.value) == value
  {
    var field := f.field;
    var current :- SourceOnHeap(raw, field, generated);
    if MissingOnHeap(current) && field.hasDefault {
      current := StructuredClone(f.default);
    }
    if MissingOnHeap(current) {
      return Ok(if field.required
                then Failure(TransformationError(field.outputPath, RequiredFieldMissing, Some(field.sourcePath)))
                else Nothing);
    }
    var coerced := CoerceOnHeap(host, current, field);
    if coerced.None? {
      return Ok(Failure(TransformationError(field.outputPath, TypeCoercionFailed, Some(field.sourcePath))));
    }
    var target :- AssertSafePath(field.outputPath);
    return Ok(ToWrite(target, coerced.value));
  }

  ghost function Settled(normalized: map<string, Value>, errors: seq<TransformationError>, pending: Pending)
    : Transformed
    reads if pending.ToWrite? && pending.value.Ref? then {pending.value.o} else {}
  {
    match pending
    case Nothing => Transformed(normalized, errors)
    case Failure(error) => Transformed(normalized, errors + [error])
    case ToWrite(target, value) => Transformed(Set(normalized, target, ValueOf(value)), errors)
  }

  /** The end of one pass of the loop: record the error, or write the value. */
  method Settle(normalized: JsObject, errors: seq<TransformationError>, pending: Pending)
    returns (r: seq<TransformationError>)
    requires normalized.Valid()
    requires pending.ToWrite? ==> GoodValue(pending.value) && ReprOf(pending.value) !! normalized.repr
    modifies normalized.repr
    ensures normalized.Valid()
    ensures Transformed(normalized.shape, r) == old(Settled(normalized.shape, errors, pending))
    ensures fresh(normalized.repr - old(normalized.repr) - old(if pending.ToWrite? then ReprOf(pending.value) else {}))
  {
    match pending {
      case Nothing => r := errors;
      case Failure(error) => r := errors + [error];
      case ToWrite(target, value) =>
        normalized.SetByPath(target, value);
        r := errors;
    }
  }

  /** One pass of the loop. */
  method ExtendOnHeap(host: Host, raw: JsObject, f: HeapField, generated: string -> string,
                      normalized: JsObject, errors: seq<TransformationError>, ghost world: set<JsObject>)
    returns (r: Result<seq<TransformationError>, PathError>)
    requires raw.Valid() && GoodField(f, world) && normalized.Valid()
    modifies normalized.repr
    ensures normalized.Valid() && fresh(normalized.repr - old(normalized.repr))
    ensures var before := Transformed(old(normalized.shape), errors);
            match RunField(host, old(raw.shape), f.field, generated)
            case Err(error) => r == Err(error)
            case Ok(result) => r.Ok? && Transformed(normalized.shape, r.value) == Extended(before, result)
  {
    var pending :- RunFieldOnHeap(host, raw, f, generated, world);
    var extended := Settle(normalized, errors, pending);
    return Ok(extended);
  }

  /** The result is made of new objects only, so no later write into it reaches the record or a default;
      and with nothing to modify, the call itself changes neither. */
  method TransformOnHeap(host: Host, raw: JsObject, fields: seq<HeapField>, generated: string -> string,
                         ghost world: set<JsObject>)
    returns (r: Result<(JsObject, seq<TransformationError>), PathError>)
    requires Inputs(raw, fields, world)
    ensures Inputs(raw, fields, world) && raw.shape == old(raw.shape) && unchanged(world)
    ensures match TransformRecord(host, raw.shape, Plain(fields), generated)
            case Err(error) => r == Err(error)
            case Ok(t) =>
              && r.Ok? && r.value.0.Valid() && fresh(r.value.0.repr)
              && r.value.0.shape == t.normalized && r.value.1 == t.errors
  {
    var normalized := new JsObject();
    var errors: seq<TransformationError> := [];
    ghost var run := Running(host, raw.shape, generated);
    for i := 0 to |fields|
      invariant normalized.Valid() && fresh(normalized.repr)
      invariant Inputs(raw, fields, world)
      invariant RunFields(run, Plain(fields)[..i]) == Ok(Transformed(normalized.shape, errors))
    {
      RunFieldsStep(run, Plain(fields), i, Transformed(normalized.shape, errors));
      var extended := ExtendOnHeap(host, raw, fields[i], generated, normalized, errors, world);
      if extended.Err? {
        FirstThrowWins(run, Plain(fields), i + 1);
        return Err(extended.error);
      }
      errors := extended.value;
    }
    assert Plain(fields)[..|fields|] == Plain(fields);
    return Ok((normalized, errors));
  }

  lemma RunFieldsStep(run: Field -> Result<FieldResult, PathError>, fields: seq<Field>, i: nat, before: Transformed)
    requires i < |fields| && RunFields(run, fields[..i]) == Ok(before)
    ensures RunFields(run, fields[..i + 1]) ==
            match run(fields[i]) case Err(error) => Err(error) case Ok(result) => Ok(Extended(before, result))
  {
    assert fields[..i + 1][..i] == fields[..i];
  }

  lemma {:induction false} FirstThrowWins(run: Field -> Result<FieldResult, PathError>, fields: seq<Field>, n: nat)
    requires n <= |fields| && RunFields(run, fields[..n]).Err?
    ensures RunFields(run, fields) == RunFields(run, fields[..n])
  {
    if n == |fields| {
      assert fields[..n] == fields;
    } else {
      assert fields[..|fields| - 1][..n] == fields[..n];
      FirstThrowWins(run, fields[..|fields| - 1], n);
    }
  }

  /** An object after a sequence of writes. */
  function WriteAll(props: map<string, Value>, writes: seq<(Path, Value)>): map<string, Value> {
    if writes == [] then props
    else
      var last := writes[|writes| - 1];
      Set(WriteAll(props, writes[..|writes| - 1]), last.0, last.1)
  }

  /** Later writes into the output, at and below any of its paths, take effect in the output and leave the
      record and the defaults as they are. */
  method WriteIntoOutput(host: Host, raw: JsObject, fields: seq<HeapField>, generated: string -> string,
                         writes: seq<(Path, Value)>, ghost world: set<JsObject>)
    returns (r: Result<JsObject, PathError>)
    requires Inputs(raw, fields, world)
    ensures Inputs(raw, fields, world) && raw.shape == old(raw.shape) && unchanged(world)
    ensures match TransformRecord(host, raw.shape, Plain(fields), generated)
            case Err(error) => r == Err(error)
            case Ok(t) =>
              r.Ok? && r.value.Valid() && fresh(r.value.repr) && r.value.shape == WriteAll(t.normalized, writes)
  {
    var transformed :- TransformOnHeap(host, raw, fields, generated, world);
    var output := transformed.0;
    ghost var normalized := output.shape;
    for i := 0 to |writes|
      invariant output.Valid() && fresh(output.repr)
      invariant output.shape == WriteAll(normalized, writes[..i])
    {
      assert writes[..i + 1][..i] == writes[..i];
      var fragment := Materialize(writes[i].1);
      output.SetByPath(writes[i].0, fragment);
    }
    assert writes[..|writes|] == writes;
    return Ok(output);
  }
}
