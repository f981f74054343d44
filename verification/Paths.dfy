/** Dotted paths into JSON objects: splitting, safety, and the laws of get and set. */
module Paths {
  import opened Common
  import opened Text
  import opened Json
  import opened Shuffle

  datatype PathError = NoSegments | UnsafeSegment(segment: string)

  const DANGEROUS_PATH_KEYS: set<string> := {"__proto__", "prototype", "constructor"}

  function TrimParts(parts: seq<string>): seq<string> {
    if parts == [] then []
    else
      var part := Trim(parts[0]);
      if part == "" then TrimParts(parts[1..]) else [part] + TrimParts(parts[1..])
  }

  function SplitPath(path: string): seq<string> {
    TrimParts(Split(path, '.'))
  }

  function FirstUnsafe(segments: seq<string>): Option<string> {
    if segments == [] then None
    else if segments[0] in DANGEROUS_PATH_KEYS then Some(segments[0])
    else FirstUnsafe(segments[1..])
  }

  function AssertSafePath(path: string): (r: Result<seq<string>, PathError>)
    ensures r.Ok? ==> r.value != [] && r.value == SplitPath(path)
  {
    var segments := SplitPath(path);
    if segments == [] then Err(NoSegments)
    else match FirstUnsafe(segments)
      case Some(segment) => Err(UnsafeSegment(segment))
      case None => Ok(segments)
  }

  predicate SafePath(path: string) {
    AssertSafePath(path).Ok?
  }

  /** A path is accepted iff it has a segment and none of them is dangerous; its segments are trimmed,
      not empty and free of dots. */
  lemma SafePathMeaning(path: string)
    ensures SafePath(path) <==>
            && SplitPath(path) != []
            && "__proto__" !in SplitPath(path) && "prototype" !in SplitPath(path) && "constructor" !in SplitPath(path)
    ensures forall s :: s in SplitPath(path) ==> s != "" && Trimmed(s) && '.' !in s
  {
    JoinSplit(path, '.');
    TrimPartsMeaning(Split(path, '.'));
    FirstUnsafeMeaning(SplitPath(path));
  }

  lemma {:induction false} FirstUnsafeMeaning(segments: seq<string>)
    ensures FirstUnsafe(segments).None? <==> forall s :: s in segments ==> s !in DANGEROUS_PATH_KEYS
  {
    if segments == [] {
    } else {
      FirstUnsafeMeaning(segments[1..]);
      assert segments == [segments[0]] + segments[1..];
    }
  }

  lemma TrimKeepsOut(s: string, c: char)
    requires c !in s
    ensures c !in Trim(s)
  {
    TrimStartKeepsOut(s, c);
    TrimEndKeepsOut(TrimStart(s), c);
  }

  lemma {:induction false} TrimStartKeepsOut(s: string, c: char)
    requires c !in s
    ensures c !in TrimStart(s)
  {
    if s != "" && IsSpace(s[0]) { TrimStartKeepsOut(s[1..], c); }
  }

  lemma {:induction false} TrimEndKeepsOut(s: string, c: char)
    requires c !in s
    ensures c !in TrimEnd(s)
  {
    if s != "" && IsSpace(s[|s| - 1]) { TrimEndKeepsOut(s[..|s| - 1], c); }
  }

  lemma {:induction false} TrimPartsMeaning(parts: seq<string>)
    requires forall i :: 0 <= i < |parts| ==> '.' !in parts[i]
    ensures forall s :: s in TrimParts(parts) ==> s != "" && Trimmed(s) && '.' !in s
  {
    if parts == [] {
    } else {
      TrimIdempotent(parts[0]);
      TrimKeepsOut(parts[0], '.');
      TrimPartsMeaning(parts[1..]);
    }
  }

  function NonEmpty(segments: seq<string>): seq<string> {
    if segments == [] then []
    else if segments[0] == "" then NonEmpty(segments[1..])
    else [segments[0]] + NonEmpty(segments[1..])
  }

  lemma {:induction false} TrimPartsAre(parts: seq<string>, segments: seq<string>)
    requires |parts| == |segments| && forall i :: 0 <= i < |parts| ==> TrimmedTo(parts[i], segments[i])
    ensures TrimParts(parts) == NonEmpty(segments)
  {
    if parts != [] {
      TrimMeaning(parts[0], segments[0]);
      TrimPartsAre(parts[1..], segments[1..]);
    }
  }

  /** Parts joined by dots, with any spaces around them, are read as their segments; empty ones are left out. */
  lemma SplitPathMeaning(parts: seq<string>, segments: seq<string>)
    requires parts != [] && |parts| == |segments|
    requires forall i :: 0 <= i < |parts| ==> '.' !in parts[i] && TrimmedTo(parts[i], segments[i])
    ensures SplitPath(Join(parts, '.')) == NonEmpty(segments)
  {
    SplitJoin(parts, '.');
    TrimPartsAre(parts, segments);
  }

  // ----- reading and writing -----

  /** What `getByPath` finds: undefined as soon as a step is not a plain object. */
  function Get(v: Value, path: seq<string>): Value
    decreases |path|
  {
    if path == [] then v
    else if v.Obj? then Get(Prop(v.props, path[0]), path[1..])
    else Undefined
  }

  /** The object already at a step, or the empty one that replaces a missing step, scalar or array. */
  function Child(props: map<string, Value>, name: string): map<string, Value> {
    EnsureObject(Prop(props, name))
  }

  /** What `setByPath` leaves behind. */
  function Set(props: map<string, Value>, path: seq<string>, value: Value): map<string, Value>
    requires path != []
    decreases |path|
  {
    if |path| == 1 then props[path[0] := value]
    else props[path[0] := Obj(Set(Child(props, path[0]), path[1..], value))]
  }

  /** The paths part at some step. */
  predicate Incomparable(p: seq<string>, q: seq<string>)
    decreases |p|
  {
    p != [] && q != [] && (p[0] != q[0] || Incomparable(p[1..], q[1..]))
  }

  /** Two paths part at some step iff neither is a prefix of the other. */
  lemma {:induction false} IncomparableMeaning(p: seq<string>, q: seq<string>)
    ensures Incomparable(p, q) <==> !(p <= q) && !(q <= p)
    ensures Incomparable(p, q) == Incomparable(q, p)
    decreases |p|
  {
    if p != [] && q != [] {
      IncomparableMeaning(p[1..], q[1..]);
      assert p == [p[0]] + p[1..] && q == [q[0]] + q[1..];
    }
  }

  /** After a write the path holds the value, with everything below it. */
  lemma {:induction false} GetAfterSet(props: map<string, Value>, p: seq<string>, value: Value, below: seq<string>)
    requires p != []
    ensures Get(Obj(Set(props, p, value)), p + below) == Get(value, below)
    decreases |p|
  {
    assert (p + below)[1..] == p[1..] + below;
    if |p| == 1 {
      assert p[1..] + below == below;
    } else {
      GetAfterSet(Child(props, p[0]), p[1..], value, below);
    }
  }

  /** A write leaves every incomparable path alone, even when a step on the way is replaced. */
  lemma {:induction false} GetElsewhere(props: map<string, Value>, p: seq<string>, value: Value, q: seq<string>)
    requires p != [] && Incomparable(p, q)
    ensures Get(Obj(Set(props, p, value)), q) == Get(Obj(props), q)
    decreases |p|
  {
    if p[0] == q[0] {
      GetElsewhere(Child(props, p[0]), p[1..], value, q[1..]);
    }
  }

  /** Every proper prefix of a written path is an object. */
  lemma {:induction false} PrefixIsObject(props: map<string, Value>, p: seq<string>, value: Value, q: seq<string>)
    requires p != [] && q < p
    ensures Get(Obj(Set(props, p, value)), q).Obj?
    decreases |p|
  {
    if q == [] {
    } else {
      assert q[1..] < p[1..];
      PrefixIsObject(Child(props, p[0]), p[1..], value, q[1..]);
    }
  }

  /** A write at a path forgets every earlier write at or below it. */
  lemma {:induction false} SetForgets(props: map<string, Value>, p: seq<string>, v: Value, q: seq<string>, w: Value)
    requires p != [] && p <= q
    ensures Set(Set(props, q, w), p, v) == Set(props, p, v)
    decreases |p|
  {
    if |p| > 1 {
      assert p[1..] <= q[1..];
      SetForgets(Child(props, p[0]), p[1..], v, q[1..], w);
    }
  }

  /** Writes at incomparable paths commute. */
  lemma {:induction false} SetCommutes(props: map<string, Value>, p: seq<string>, v: Value, q: seq<string>, w: Value)
    requires p != [] && q != [] && Incomparable(p, q)
    ensures Set(Set(props, p, v), q, w) == Set(Set(props, q, w), p, v)
    decreases |p|
  {
    if p[0] == q[0] {
      SetCommutes(Child(props, p[0]), p[1..], v, q[1..], w);
      SetTwiceInside(props, p, v, q, w);
      SetTwiceInside(props, q, w, p, v);
    } else {
      SetTwiceApart(props, p, v, q, w);
      SetTwiceApart(props, q, w, p, v);
      UpdatesCommute(props, p[0], Set(props, p, v)[p[0]], q[0], Set(props, q, w)[q[0]]);
    }
  }

  lemma UpdatesCommute(props: map<string, Value>, j: string, v: Value, k: string, w: Value)
    requires j != k
    ensures props[j := v][k := w] == props[k := w][j := v]
  {
  }

  lemma SetTwiceInside(props: map<string, Value>, p: seq<string>, v: Value, q: seq<string>, w: Value)
    requires |p| > 1 && |q| > 1 && p[0] == q[0]
    ensures Set(Set(props, p, v), q, w) == props[p[0] := Obj(Set(Set(Child(props, p[0]), p[1..], v), q[1..], w))]
  {
  }

  lemma SetTwiceApart(props: map<string, Value>, p: seq<string>, v: Value, q: seq<string>, w: Value)
    requires p != [] && q != [] && p[0] != q[0]
    ensures Set(Set(props, p, v), q, w) == props[p[0] := Set(props, p, v)[p[0]]][q[0] := Set(props, q, w)[q[0]]]
  {
  }

  // ----- building an object from a sequence of optional writes -----

  datatype Write = Write(path: seq<string>, value: Option<Value>)

  predicate GoodWrites(writes: seq<Write>) {
    forall i :: 0 <= i < |writes| ==> writes[i].path != []
  }

  function Build(writes: seq<Write>): map<string, Value>
    requires GoodWrites(writes)
  {
    if writes == [] then map[]
    else
      Apply(Build(writes[..|writes| - 1]), writes[|writes| - 1])
  }

  function Apply(props: map<string, Value>, w: Write): map<string, Value>
    requires w.path != []
  {
    if w.value.Some? then Set(props, w.path, w.value.value) else props
  }

  /** A path with no comparable write stays undefined, and so does everything below it. */
  lemma {:induction false} BuildUntouched(writes: seq<Write>, q: seq<string>)
    requires GoodWrites(writes) && q != []
    requires forall i :: 0 <= i < |writes| && writes[i].value.Some? ==> Incomparable(writes[i].path, q)
    ensures Get(Obj(Build(writes)), q) == Undefined
  {
    if writes == [] {
    } else {
      var n := |writes| - 1;
      BuildUntouched(writes[..n], q);
      if writes[n].value.Some? {
        GetElsewhere(Build(writes[..n]), writes[n].path, writes[n].value.value, q);
      }
    }
  }

  /** A write survives, with everything below it, if each later write is at an incomparable path. */
  lemma {:induction false} BuildHolds(writes: seq<Write>, i: nat, below: seq<string>)
    requires GoodWrites(writes) && i < |writes| && writes[i].value.Some?
    requires forall j :: i < j < |writes| && writes[j].value.Some? ==> Incomparable(writes[j].path, writes[i].path)
    ensures Get(Obj(Build(writes)), writes[i].path + below) == Get(writes[i].value.value, below)
  {
    var n := |writes| - 1;
    var w := writes[n];
    if i == n {
      GetAfterSet(Build(writes[..n]), w.path, w.value.value, below);
    } else {
      BuildHolds(writes[..n], i, below);
      if w.value.Some? {
        ExtendIncomparable(w.path, writes[i].path, below);
        GetElsewhere(Build(writes[..n]), w.path, w.value.value, writes[i].path + below);
      }
    }
  }

  /** With every other write at an incomparable path, a path holds its own write or nothing. */
  lemma BuildHoldsOwn(writes: seq<Write>, i: nat)
    requires GoodWrites(writes) && i < |writes|
    requires forall j :: 0 <= j < |writes| && j != i ==> Incomparable(writes[j].path, writes[i].path)
    ensures Get(Obj(Build(writes)), writes[i].path) == writes[i].value.GetOr(Undefined)
  {
    if writes[i].value.Some? {
      BuildHolds(writes, i, []);
      assert writes[i].path + [] == writes[i].path;
    } else {
      BuildUntouched(writes, writes[i].path);
    }
  }

  lemma {:induction false} ExtendIncomparable(p: seq<string>, q: seq<string>, below: seq<string>)
    requires Incomparable(p, q)
    ensures Incomparable(p, q + below)
    decreases |p|
  {
    if p[0] == q[0] {
      assert (q + below)[1..] == q[1..] + below;
      ExtendIncomparable(p[1..], q[1..], below);
    }
  }

  ghost predicate PairwiseIncomparable(writes: seq<Write>) {
    forall i, j :: 0 <= i < j < |writes| && writes[i].value.Some? && writes[j].value.Some?
      ==> Incomparable(writes[i].path, writes[j].path)
  }

  lemma AppliesCommute(props: map<string, Value>, a: Write, b: Write)
    requires a.path != [] && b.path != []
    requires a.value.Some? && b.value.Some? ==> Incomparable(a.path, b.path)
    ensures Apply(Apply(props, a), b) == Apply(Apply(props, b), a)
  {
    if a.value.Some? && b.value.Some? {
      SetCommutes(props, a.path, a.value.value, b.path, b.value.value);
    }
  }

  /** Any write of a pairwise incomparable sequence may as well come last. */
  lemma {:induction false} MoveToEnd(writes: seq<Write>, k: nat)
    requires GoodWrites(writes) && PairwiseIncomparable(writes) && k < |writes|
    ensures GoodWrites(Without(writes, k)) && Build(writes) == Apply(Build(Without(writes, k)), writes[k])
  {
    var n := |writes| - 1;
    var before, last := writes[..n], writes[n];
    if k == n {
      assert Without(writes, k) == before;
    } else {
      MoveToEnd(before, k);
      AppliesCommute(Build(Without(before, k)), writes[k], last);
      WithoutInner(writes, k);
      BuildAppend(Without(before, k), last);
    }
  }

  lemma BuildAppend(writes: seq<Write>, last: Write)
    requires GoodWrites(writes) && last.path != []
    ensures GoodWrites(writes + [last]) && Build(writes + [last]) == Apply(Build(writes), last)
  {
  }

  /** Writes at pairwise incomparable paths build the same object in any order. */
  lemma {:induction false} BuildAnyOrder(writes: seq<Write>, shuffled: seq<Write>)
    requires GoodWrites(writes) && PairwiseIncomparable(writes)
    requires multiset(writes) == multiset(shuffled)
    ensures GoodWrites(shuffled) && Build(writes) == Build(shuffled)
    decreases |shuffled|
  {
    if shuffled == [] {
      assert writes == [];
    } else {
      var n := |shuffled| - 1;
      var last := shuffled[n];
      var k := HeldSomewhere(writes, shuffled);
      var rest := Without(writes, k);
      SameRest(writes, k, shuffled);
      MoveToEnd(writes, k);
      WithoutIncomparable(writes, k);
      BuildAnyOrder(rest, shuffled[..n]);
    }
  }

  lemma WithoutIncomparable(writes: seq<Write>, k: nat)
    requires PairwiseIncomparable(writes) && k < |writes|
    ensures PairwiseIncomparable(Without(writes, k))
  {
  }
}
