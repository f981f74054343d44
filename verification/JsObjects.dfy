/**
 Records as mutable objects on the heap, and the transformation that writes into them in place.
 `shape` is the JSON value an object stands for, `repr` the objects it is made of.
 */
module JsObjects {
  import opened Common
  import opened Json
  import opened Paths

  /** A property value: a scalar or an array, which nobody writes into, or a reference to an object. */
  datatype HeapValue = Leaf(v: Value) | Ref(o: JsObject)

  class JsObject {
    var props: map<string, HeapValue>
    ghost var shape: map<string, Value>
    ghost var repr: set<JsObject>

    /** The object is a tree: children are disjoint, and none of them reaches back. */
    ghost predicate Valid()
      reads this, repr
      decreases repr
    {
      && this in repr
      && props.Keys == shape.Keys
      && (forall k :: k in props && props[k].Leaf? ==> !props[k].v.Obj? && shape[k] == props[k].v)
      && (forall k :: k in props && props[k].Ref? ==>
            && props[k].o in repr && props[k].o.repr <= repr && this !in props[k].o.repr
            && props[k].o.Valid() && shape[k] == Obj(props[k].o.shape))
      && (forall j, k :: j in props && k in props && j != k && props[j].Ref? && props[k].Ref? ==>
            props[j].o.repr !! props[k].o.repr)
    }

    constructor ()
      ensures Valid() && shape == map[] && repr == {this}
    {
      props := map[];
      shape := map[];
      repr := {this};
    }

    /** `obj[name] = value` for a value that shares no object with this one. */
    method SetProp(name: string, value: HeapValue)
      requires Valid() && GoodValue(value) && ReprOf(value) !! repr
      modifies this
      ensures Valid() && shape == old(shape)[name := ValueOf(value)]
      ensures repr == old(repr) + ReprOf(value)
      ensures props == old(props)[name := value]
    {
      props := props[name := value];
      shape := shape[name := ValueOf(value)];
      repr := repr + ReprOf(value);
    }

    /** The object at a step; a missing property, a scalar or an array is replaced by an empty one. */
    method OwnChild(name: string) returns (child: JsObject)
      requires Valid()
      modifies this
      ensures Valid() && name in props && props[name] == Ref(child)
      ensures child.shape == Child(old(shape), name)
      ensures shape == old(shape)[name := Obj(child.shape)]
      ensures old(repr) <= repr && fresh(repr - old(repr))
    {
      if name !in props || props[name].Leaf? {
        var empty := new JsObject();
        SetProp(name, Ref(empty));
      }
      child := props[name].o;
    }

    /** Valid, but for what is recorded about the child at `name`. */
    ghost predicate ValidBut(name: string)
      requires name in props && props[name].Ref?
      reads this, repr, props[name].o, props[name].o.repr
    {
      var child := props[name].o;
      && this in repr
      && props.Keys == shape.Keys
      && child.Valid() && this !in child.repr
      && (forall k :: k in props && k != name && props[k].Leaf? ==> !props[k].v.Obj? && shape[k] == props[k].v)
      && (forall k :: k in props && k != name && props[k].Ref? ==>
            && props[k].o in repr && props[k].o.repr <= repr && this !in props[k].o.repr
            && props[k].o.Valid() && shape[k] == Obj(props[k].o.shape)
            && props[k].o.repr !! child.repr)
      && (forall j, k :: j in props.Keys - {name} && k in props.Keys - {name} && j != k ==>
            (props[j].Ref? && props[k].Ref? ==> props[j].o.repr !! props[k].o.repr))
    }

    ghost method RecordChild(name: string)
      requires name in props && props[name].Ref? && ValidBut(name)
      modifies this
      ensures Valid() && props == old(props)
      ensures shape == old(shape)[name := Obj(props[name].o.shape)] && repr == old(repr) + props[name].o.repr
    {
      var child := props[name].o;
      shape := shape[name := Obj(child.shape)];
      repr := repr + child.repr;
      forall k | k in props && props[k].Ref?
        ensures props[k].o in repr && props[k].o.repr <= repr && this !in props[k].o.repr
        ensures props[k].o.Valid() && shape[k] == Obj(props[k].o.shape)
        ensures k != name ==> props[k].o.repr !! child.repr
      {
        if k == name {
          assert props[k].o == child;
        }
      }
    }

    /** `setByPath`: each level is written in place, and what is no object on the way is replaced. */
    method SetByPath(path: seq<string>, value: HeapValue)
      requires Valid() && path != [] && GoodValue(value) && ReprOf(value) !! repr
      modifies repr
      ensures Valid() && shape == Set(old(shape), path, old(ValueOf(value)))
      ensures fresh(repr - old(repr) - old(ReprOf(value)))
      decreases |path|, 1
    {
      if |path| == 1 {
        SetProp(path[0], value);
      } else {
        ghost var given, v, start := ReprOf(value), ValueOf(value), repr;
        var child := OwnChild(path[0]);
        assert GoodValue(value) && ReprOf(value) == given && ValueOf(value) == v;
        assert given !! repr by {
          assert given !! start && fresh(repr - start);
        }
        UpdateTwice(old(shape), path[0], Obj(child.shape), Obj(Set(child.shape, path[1..], v)));
        WriteBelow(path[0], path[1..], value);
      }
    }

    lemma UpdateTwice(m: map<string, Value>, k: string, v: Value, w: Value)
      ensures m[k := v][k := w] == m[k := w]
    {
    }

    method WriteBelow(name: string, path: seq<string>, value: HeapValue)
      requires Valid() && name in props && props[name].Ref?
      requires path != [] && GoodValue(value) && ReprOf(value) !! repr
      modifies repr
      ensures Valid()
      ensures shape == old(shape)[name := Obj(Set(old(props[name].o.shape), path, old(ValueOf(value))))]
      ensures fresh(repr - old(repr) - old(ReprOf(value)))
      decreases |path| + 1, 0
    {
      props[name].o.SetByPath(path, value);
      forall k | k in props && k != name && props[k].Ref?
        ensures props[k].o.Valid() && props[k].o.repr == old(props[k].o.repr)
        ensures props[k].o.repr !! props[name].o.repr
      {
        assert old(props[k].o.repr) !! old(props[name].o.repr);
        assert props[k].o in old(props[k].o.repr);
      }
      RecordChild(name);
    }

    /** The JSON value of an object, read off the heap. */
    method Snapshot() returns (m: map<string, Value>)
      requires Valid()
      ensures m == shape
      decreases repr
    {
      m := map[];
      var todo := props.Keys;
      while todo != {}
        invariant todo <= props.Keys
        invariant m.Keys == props.Keys - todo
        invariant forall k :: k in m ==> m[k] == shape[k]
      {
        var k :| k in todo;
        match props[k] {
          case Leaf(v) => m := m[k := v];
          case Ref(o) =>
            var inner := o.Snapshot();
            m := m[k := Obj(inner)];
        }
        todo := todo - {k};
      }
    }
  }

  ghost function ReprOf(value: HeapValue): set<JsObject>
    reads if value.Ref? then {value.o} else {}
  {
    if value.Ref? then value.o.repr else {}
  }

  ghost function ValueOf(value: HeapValue): Value
    reads if value.Ref? then {value.o} else {}
  {
    if value.Ref? then Obj(value.o.shape) else value.v
  }

  ghost predicate GoodValue(value: HeapValue)
    reads if value.Ref? then {value.o} + value.o.repr else {}
  {
    if value.Ref? then value.o.Valid() else !value.v.Obj?
  }

  /** Objects for a JSON value, all of them new. */
  method Materialize(v: Value) returns (h: HeapValue)
    ensures GoodValue(h) && ValueOf(h) == v && fresh(ReprOf(h))
    decreases v
  {
    match v {
      case Obj(m) =>
        var o := new JsObject();
        var todo := m.Keys;
        while todo != {}
          invariant todo <= m.Keys
          invariant o.Valid() && fresh(o.repr)
          invariant o.shape.Keys == m.Keys - todo
          invariant forall k :: k in o.shape ==> o.shape[k] == m[k]
        {
          var k :| k in todo;
          var child := Materialize(m[k]);
          o.SetProp(k, child);
          todo := todo - {k};
        }
        assert o.shape == m;
        h := Ref(o);
      case _ => h := Leaf(v);
    }
  }

  /** `structuredClone`: an equal value that shares no object with the original. */
  method StructuredClone(h: HeapValue) returns (copy: HeapValue)
    requires GoodValue(h)
    ensures GoodValue(copy) && ValueOf(copy) == ValueOf(h) && fresh(ReprOf(copy))
  {
    match h {
      case Leaf(v) => copy := Leaf(v);
      case Ref(o) =>
        var m := o.Snapshot();
        copy := Materialize(Obj(m));
    }
  }

  /** `getByPath`, which hands out a reference into the record. */
  method GetByPath(source: JsObject, path: string) returns (r: Result<HeapValue, PathError>)
    requires source.Valid()
    ensures r.Err? <==> AssertSafePath(path).Err?
    ensures r.Err? ==> r.error == AssertSafePath(path).error
    ensures r.Ok? ==> GoodValue(r.value) && ReprOf(r.value) <= source.repr
    ensures r.Ok? ==> ValueOf(r.value) == Get(Obj(source.shape), AssertSafePath(path).value)
  {
    var segments :- AssertSafePath(path);
    var current := Ref(source);
    for i := 0 to |segments|
      invariant GoodValue(current) && ReprOf(current) <= source.repr
      invariant Get(ValueOf(current), segments[i..]) == Get(Obj(source.shape), segments)
    {
      if current.Leaf? {
        return Ok(Leaf(Undefined));
      }
      assert segments[i..][1..] == segments[i + 1..];
      var o := current.o;
      current := if segments[i] in o.props then o.props[segments[i]] else Leaf(Undefined);
    }
    return Ok(current);
  }
}
