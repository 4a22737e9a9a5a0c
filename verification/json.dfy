/** The JSON-like values the widgets receive from the search endpoint, with the
    JavaScript notions the scripts apply to them: truthiness, own-property
    access along a path, `String(value)`, and "the first of several candidate
    paths whose value is acceptable". */
module Json {
  import opened Wrappers
  import opened Text
  import opened Numerals

  /** Numbers are integral in this model. An object is a map from own property
      names to values. */
  datatype Value =
    | Null
    | Bool(b: bool)
    | Num(n: int)
    | Str(s: string)
    | Arr(items: seq<Value>)
    | Obj(fields: map<string, Value>)

  /** JavaScript truthiness: `null`, `false`, `0` and `""` are falsy; every
      array and object is truthy, empty ones included. */
  predicate Truthy(v: Value) {
    match v
    case Null => false
    case Bool(b) => b
    case Num(n) => n != 0
    case Str(s) => s != ""
    case Arr(_) => true
    case Obj(_) => true
  }

  /** `Object.prototype.hasOwnProperty.call(v, key)`. */
  predicate HasOwn(v: Value, key: string) {
    v.Obj? && key in v.fields
  }

  /** `v[key]`; `None` is `undefined`. */
  function Prop(v: Value, key: string): (r: Option<Value>)
    ensures r.Some? <==> HasOwn(v, key)
    ensures r.Some? ==> r.value == v.fields[key]
  {
    if HasOwn(v, key) then Some(v.fields[key]) else None
  }

  /** `v.k1.k2…`, guarded as the scripts guard it (`v.k1 && v.k1.k2`): a
      missing step yields `None`. */
  function At(v: Value, path: seq<string>): Option<Value>
    decreases |path|
  {
    if path == [] then Some(v)
    else match Prop(v, path[0])
      case None => None
      case Some(w) => At(w, path[1..])
  }

  lemma AtOne(v: Value, key: string)
    ensures At(v, [key]) == Prop(v, key)
  {
    assert [key][1..] == [];
  }

  lemma AtTwo(v: Value, outer: string, key: string)
    ensures At(v, [outer, key]) == if HasOwn(v, outer) then Prop(v.fields[outer], key) else None
  {
    assert [outer, key][1..] == [key];
    if HasOwn(v, outer) {
      AtOne(v.fields[outer], key);
    }
  }

  /** What a lookup accepts as a hit: any present value (`hasOwnProperty`),
      a truthy value (`if (x) return x`), or an array (`Array.isArray`). */
  datatype Accept = AnyValue | TruthyValue | ArrayValue

  predicate Accepts(a: Accept, v: Value) {
    match a
    case AnyValue => true
    case TruthyValue => Truthy(v)
    case ArrayValue => v.Arr?
  }

  predicate Hit(v: Value, path: seq<string>, a: Accept) {
    At(v, path).Some? && Accepts(a, At(v, path).value)
  }

  /** Index of the first path whose value is accepted, or `|paths|`. */
  function FirstIndex(v: Value, paths: seq<seq<string>>, a: Accept): (r: nat)
    ensures r <= |paths|
    ensures forall k :: 0 <= k < r ==> !Hit(v, paths[k], a)
    ensures r < |paths| ==> Hit(v, paths[r], a)
    decreases |paths|
  {
    if paths == [] then 0
    else if Hit(v, paths[0], a) then 0
    else 1 + FirstIndex(v, paths[1..], a)
  }

  /** The value at the first path whose value is accepted. */
  function FirstAt(v: Value, paths: seq<seq<string>>, a: Accept): (r: Option<Value>)
    ensures r.None? <==> forall k :: 0 <= k < |paths| ==> !Hit(v, paths[k], a)
    ensures r.Some? ==> Accepts(a, r.value)
    ensures forall j :: 0 <= j < |paths| && Hit(v, paths[j], a) && (forall k :: 0 <= k < j ==> !Hit(v, paths[k], a)) ==>
                          r == At(v, paths[j])
  {
    var j := FirstIndex(v, paths, a);
    if j < |paths| then At(v, paths[j]) else None
  }

  /** Taking one step: the first path decides when it hits, else the rest do. */
  lemma FirstAtStep(v: Value, paths: seq<seq<string>>, a: Accept)
    requires paths != []
    ensures FirstAt(v, paths, a) == if Hit(v, paths[0], a) then At(v, paths[0]) else FirstAt(v, paths[1..], a)
  {
  }

  /** The first accepted path is the one accepted after a run of rejected ones. */
  lemma FirstIndexIs(v: Value, paths: seq<seq<string>>, a: Accept, j: nat)
    requires j < |paths| && Hit(v, paths[j], a)
    requires forall k :: 0 <= k < j ==> !Hit(v, paths[k], a)
    ensures FirstIndex(v, paths, a) == j
  {
  }

  /** Two values that agree on the first `n` paths, one of which is accepted,
      yield the same first accepted value: the later paths are never read. */
  lemma FirstAtAgree(v: Value, w: Value, paths: seq<seq<string>>, a: Accept, n: nat)
    requires n <= |paths|
    requires forall k :: 0 <= k < n ==> At(v, paths[k]) == At(w, paths[k])
    requires exists k :: 0 <= k < n && Hit(v, paths[k], a)
    ensures FirstAt(v, paths, a) == FirstAt(w, paths, a)
  {
    var j := FirstIndex(v, paths, a);
    assert j < n;
    assert FirstIndex(w, paths, a) == j by {
      forall k | 0 <= k < j
        ensures !Hit(w, paths[k], a)
      {
        assert At(v, paths[k]) == At(w, paths[k]);
      }
      assert At(v, paths[j]) == At(w, paths[j]);
      FirstIndexIs(w, paths, a, j);
    }
    assert At(v, paths[j]) == At(w, paths[j]);
  }

  /** `String(v)`. An array is joined with "," and its `null` elements
      become empty strings; a plain object is "[object Object]". */
  function JsString(v: Value): string
    decreases v, 1
  {
    match v
    case Null => "null"
    case Bool(b) => if b then "true" else "false"
    case Num(n) => IntToString(n)
    case Str(s) => s
    case Arr(_) => Join(ElementStrings(v), ",")
    case Obj(_) => "[object Object]"
  }

  /** What `Array.prototype.join` turns each element of an array into. */
  function ElementStrings(v: Value): (r: seq<string>)
    requires v.Arr?
    ensures |r| == |v.items|
    decreases v, 0
  {
    seq(|v.items|, i requires 0 <= i < |v.items| => if v.items[i].Null? then "" else JsString(v.items[i]))
  }
}
