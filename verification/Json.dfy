/** JSON values as the TypeScript code sees them, with `undefined` for what is absent. */
module Json {
  datatype Number = Finite(r: real) | Infinite(negative: bool) | NaN

  datatype Value =
    | Undefined
    | Null
    | Bool(b: bool)
    | Num(n: Number)
    | Str(s: string)
    | Arr(items: seq<Value>)
    | Obj(props: map<string, Value>)

  predicate Truthy(v: Value) {
    match v
    case Undefined => false
    case Null => false
    case Bool(b) => b
    case Num(n) => n != Finite(0.0) && n != NaN
    case Str(s) => s != ""
    case Arr(_) => true
    case Obj(_) => true
  }

  function Prop(props: map<string, Value>, name: string): Value {
    if name in props then props[name] else Undefined
  }

  /** `ensureRecordObject`: anything but a plain object counts as an empty record. */
  function EnsureObject(v: Value): map<string, Value> {
    if v.Obj? then v.props else map[]
  }
}
