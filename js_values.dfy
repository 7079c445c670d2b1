/** The JavaScript values the validator inspects, and the small value
    helpers of build/index.js: `is`, `existy`, `values`, property access,
    strict equality (as used by `indexOf`) and `doubleToSingleQuotes`. */
module JsValues {
  import opened Outcomes

  /** A JavaScript value.  Arrays, objects and functions are references: `id`
      stands for their identity, which is what `===` compares.  Object fields
      are kept in `Object.keys` order; numbers are integers here. */
  datatype Value =
    | Undefined
    | Null
    | Str(s: string)
    | Num(n: int)
    | Bool(b: bool)
    | Arr(id: nat, elems: seq<Value>)
    | Obj(id: nat, fields: seq<(string, Value)>)
    | Func(id: nat)

  /** The name inside `Object.prototype.toString.call(x)`, i.e. `[object <Tag>]`. */
  function Tag(x: Value): string
  {
    match x
    case Undefined => "Undefined"
    case Null => "Null"
    case Str(_) => "String"
    case Num(_) => "Number"
    case Bool(_) => "Boolean"
    case Arr(_, _) => "Array"
    case Obj(_, _) => "Object"
    case Func(_) => "Function"
  }

  /** `is(typeName, x)`: `toString.call(x)` is `[object <typeName>]`, that is,
      the runtime tag of x is exactly typeName. */
  predicate Is(typeName: string, x: Value)
  {
    Tag(x) == typeName
  }

  /** `existy(x)`: x is neither null nor undefined. */
  predicate Existy(x: Value)
  {
    !Is("Null", x) && !Is("Undefined", x)
  }

  /** Each tag names exactly one kind of value. */
  lemma IsByKind(x: Value)
    ensures Is("Undefined", x) <==> x.Undefined?
    ensures Is("Null", x) <==> x.Null?
    ensures Is("String", x) <==> x.Str?
    ensures Is("Number", x) <==> x.Num?
    ensures Is("Boolean", x) <==> x.Bool?
    ensures Is("Array", x) <==> x.Arr?
    ensures Is("Object", x) <==> x.Obj?
    ensures Is("Function", x) <==> x.Func?
  {
  }

  lemma ExistyIsPresence(x: Value)
    ensures Existy(x) <==> !(x.Null? || x.Undefined?)
  {
  }

  /** `a === b`: primitives compare by value, references by identity. */
  predicate StrictEquals(a: Value, b: Value)
  {
    match (a, b)
    case (Undefined, Undefined) => true
    case (Null, Null) => true
    case (Str(s), Str(t)) => s == t
    case (Num(m), Num(n)) => m == n
    case (Bool(p), Bool(q)) => p == q
    case (Arr(i, _), Arr(j, _)) => i == j
    case (Obj(i, _), Obj(j, _)) => i == j
    case (Func(i), Func(j)) => i == j
    case _ => false
  }

  /** `===` is an equivalence; on primitives it is equality of values, and
      a reference is never strictly equal to a value of another kind. */
  lemma StrictEqualsLaws(a: Value, b: Value, c: Value)
    ensures StrictEquals(a, a)
    ensures StrictEquals(a, b) ==> StrictEquals(b, a)
    ensures StrictEquals(a, b) && StrictEquals(b, c) ==> StrictEquals(a, c)
    ensures !(a.Arr? || a.Obj? || a.Func?) ==> (StrictEquals(a, b) <==> a == b)
    ensures StrictEquals(a, b) ==> Tag(a) == Tag(b)
  {
  }

  /** `possibilities.indexOf(x)`: the first index holding a value strictly
      equal to x, or -1. */
  function IndexOf(possibilities: seq<Value>, x: Value): (r: int)
    ensures -1 <= r < |possibilities|
    ensures r == -1 <==> forall i :: 0 <= i < |possibilities| ==> !StrictEquals(possibilities[i], x)
    ensures r >= 0 ==> StrictEquals(possibilities[r], x)
    ensures forall i :: 0 <= i < r ==> !StrictEquals(possibilities[i], x)
  {
    if possibilities == [] then -1
    else if StrictEquals(possibilities[0], x) then 0
    else
      var k := IndexOf(possibilities[1..], x);
      if k == -1 then -1 else k + 1
  }

  /** The value of field `key` of a present value.  Only plain objects carry
      fields in this model; any other present value reads `undefined`. */
  function Field(x: Value, key: string): Value
  {
    match x
    case Obj(_, fields) => Lookup(fields, key)
    case _ => Undefined
  }

  function Lookup(fields: seq<(string, Value)>, key: string): (r: Value)
    ensures (forall i :: 0 <= i < |fields| ==> fields[i].0 != key) ==> r == Undefined
    ensures r != Undefined ==> exists i :: 0 <= i < |fields| && fields[i] == (key, r)
  {
    if fields == [] then Undefined
    else if fields[0].0 == key then fields[0].1
    else
      var r := Lookup(fields[1..], key);
      assert r != Undefined ==> exists i :: 0 <= i < |fields| - 1 && fields[1..][i] == (key, r);
      r
  }

  /** A key that is present reads the value of its first occurrence. */
  lemma {:induction false} LookupFirst(fields: seq<(string, Value)>, key: string, i: nat)
    requires i < |fields| && fields[i].0 == key
    requires forall j :: 0 <= j < i ==> fields[j].0 != key
    ensures Lookup(fields, key) == fields[i].1
  {
    if i > 0 {
      assert fields[0].0 != key;
      LookupFirst(fields[1..], key, i - 1);
    }
  }

  /** `obj[key]`: reading a property of null or undefined throws. */
  function Get(obj: Value, key: string): (r: Outcome<Value>)
    ensures r.Threw? <==> obj.Null? || obj.Undefined?
    ensures r.Done? ==> r.value == Field(obj, key)
  {
    if obj.Null? || obj.Undefined? then Threw(PropertyOfAbsent) else Done(Field(obj, key))
  }

  /** One step of `vals.concat(v)`: an array argument is spread one level,
      any other value is appended. */
  function Spread(v: Value): seq<Value>
  {
    if v.Arr? then v.elems else [v]
  }

  function SpreadAll(vs: seq<Value>): seq<Value>
  {
    if vs == [] then [] else SpreadAll(vs[..|vs| - 1]) + Spread(vs[|vs| - 1])
  }

  function FieldValues(fields: seq<(string, Value)>): (r: seq<Value>)
    ensures |r| == |fields|
    ensures forall i :: 0 <= i < |fields| ==> r[i] == fields[i].1
  {
    if fields == [] then [] else [fields[0].1] + FieldValues(fields[1..])
  }

  /** `values(obj)`: fold `concat` over `Object.keys(obj)`.  Own keys are the
      fields of an object, the indices of an array and of a string, and none
      for numbers, booleans and functions; `Object.keys` of null or undefined
      throws. */
  function Values(x: Value): (r: Outcome<seq<Value>>)
    ensures r.Threw? <==> x.Undefined? || x.Null?
    ensures r.Threw? ==> r.error == KeysOfAbsent
    ensures x.Str? ==> r.Done? && |r.value| == |x.s| && forall i :: 0 <= i < |x.s| ==> r.value[i] == Str([x.s[i]])
    ensures x.Num? || x.Bool? || x.Func? ==> r == Done([])
  {
    match x
    case Undefined => Threw(KeysOfAbsent)
    case Null => Threw(KeysOfAbsent)
    case Obj(_, fields) => Done(SpreadAll(FieldValues(fields)))
    case Arr(_, elems) => Done(SpreadAll(elems))
    case Str(s) => Done(seq(|s|, i requires 0 <= i < |s| => Str([s[i]])))
    case _ => Done([])
  }

  /** `doubleToSingleQuotes(str)`: `str.replace(/"/g, "'")`. */
  function DoubleToSingleQuotes(str: string): (r: string)
    ensures |r| == |str|
    ensures '"' !in r
    ensures forall i :: 0 <= i < |str| && str[i] != '"' ==> r[i] == str[i]
    ensures forall i :: 0 <= i < |str| && str[i] == '"' ==> r[i] == '\''
  {
    if str == [] then []
    else [if str[0] == '"' then '\'' else str[0]] + DoubleToSingleQuotes(str[1..])
  }

  /** A string without double quotes is left as it is. */
  lemma NoDoubleQuotesUnchanged(str: string)
    requires '"' !in str
    ensures DoubleToSingleQuotes(str) == str
  {
  }

  /** Replacing the double quotes twice is replacing them once. */
  lemma DoubleToSingleQuotesIdempotent(str: string)
    ensures DoubleToSingleQuotes(DoubleToSingleQuotes(str)) == DoubleToSingleQuotes(str)
  {
  }
}
