/** Type descriptors, their messages, and the validation engine of
    build/index.js.

    A descriptor is either a base descriptor (`Base`), built by one of the
    factories of `types`, or the `isRequired` link (`IsRequired`), whose
    `next` is the descriptor it was taken from.  A descriptor's `validate` is
    `Accepts`; the engine `_validate` is `Validate`, a left fold (`Collect`)
    over the schema keys of one step per key (`KeyStep`), which checks the
    head link (`ValidateType`) and then walks the `next` chain (`ChainFrom`).
    `shape` and `asType` call the engine back, so all of these are one
    mutually recursive group, ordered by the size of the descriptors. */
module Kisschema {
  import opened Outcomes
  import opened JsValues

  /** The primitive descriptors that test a runtime tag. */
  datatype Kind = StringKind | NumberKind | BoolKind | ObjectKind | ArrayKind | FuncKind

  /** The validation rule of a base descriptor. */
  datatype Rule =
    | Primitive(kind: Kind)
    | AnyValue
    | OneOf(possibilities: seq<Value>)
    | OneOfType(subs: seq<Type>)
    | ArrayOf(item: Type)
    | ObjectOf(item: Type)
      /** `x instanceof Constructor`, supplied as a predicate: the prototype
          chain is not modelled. */
    | InstanceOf(isInstance: Value -> bool)
    | Shape(schema: Schema)
      /** The anonymous descriptor `asType` builds around a raw schema. */
    | SchemaMatch(schema: Schema)
      /** A raw schema that has a `validate` key: `asType` returns it as it
          is, and its `validate` entry is a descriptor, not a function. */
    | RawSchemaAsDescriptor(schema: Schema)
      /** A descriptor built by `custom` from the user's functions. */
    | Custom(check: Value -> bool, describe: (string, Value) -> string, json: CustomJson)

  /** What a custom descriptor's `toJSON` property ends up holding. */
  datatype CustomJson =
    | DefaultNotice              // the library's own notice
    | UserToJson(text: string)   // the user's function, and the text it returns
    | Overwritten(v: Value)      // the user's explicit null or undefined

  /** A descriptor: a base descriptor, or an `isRequired` link to `next`. */
  datatype Type = Base(rule: Rule) | IsRequired(next: Type)

  /** A schema: property names to descriptors, in `Object.keys` order. */
  type Schema = seq<(string, Type)>

  /** What a failure message says after the property name. */
  datatype Detail =
    | ShouldBeOfType(kind: Kind)
    | ShouldBeAnything
    | MustNotBeAbsent
    | ShouldMatchOneOf
    | ShouldBeOneOfType
    | ShouldBeArrayOf
    | ShouldBeObjectOf
    | ShouldBeInstanceOf
    | ShouldMatchShape
    | ShouldMatchSchema
    | UserMessage(text: string)

  /** A failure message about property `prop`. */
  datatype Message = Message(prop: string, detail: Detail)

  /** The type name a primitive descriptor prints. */
  function KindName(k: Kind): string
  {
    match k
    case StringKind => "string"
    case NumberKind => "number"
    case BoolKind => "bool"
    case ObjectKind => "object"
    case ArrayKind => "array"
    case FuncKind => "func"
  }

  /** The runtime tag a primitive descriptor tests for. */
  function KindTag(k: Kind): string
  {
    match k
    case StringKind => "String"
    case NumberKind => "Number"
    case BoolKind => "Boolean"
    case ObjectKind => "Object"
    case ArrayKind => "Array"
    case FuncKind => "Function"
  }

  /** The text of a message.  Messages that end in a `JSON.stringify` of the
      descriptor are given up to that serialization. */
  function Text(m: Message): (r: string)
    ensures !m.detail.UserMessage? ==> m.prop <= r
    ensures m.detail.UserMessage? ==> r == m.detail.text
  {
    match m.detail
    case ShouldBeOfType(k) => m.prop + " should be of type: " + KindName(k)
    case ShouldBeAnything => m.prop + " should be \"any\"thing... just not undefined or null"
    case MustNotBeAbsent => m.prop + " must not be null or undefined"
    case ShouldMatchOneOf => m.prop + " should match one of: "
    case ShouldBeOneOfType => m.prop + " should be one of type: "
    case ShouldBeArrayOf => m.prop + " should be an array containing items of type: "
    case ShouldBeObjectOf => m.prop + " should be an object containing items of type: "
    case ShouldBeInstanceOf => m.prop + " should be an instance of "
    case ShouldMatchShape => m.prop + " should match shape "
    case ShouldMatchSchema => m.prop + " should match schema: "
    case UserMessage(text) => text
  }

  /** `type.makeErrorMessage(ctx, x)` with `ctx = { prop }`. */
  function MakeErrorMessage(t: Type, prop: string, x: Value): (m: Message)
    ensures m.prop == prop
    ensures m.detail.MustNotBeAbsent? <==> t.IsRequired?
  {
    match t
    case IsRequired(_) => Message(prop, MustNotBeAbsent)
    case Base(rule) =>
      match rule
      case Primitive(k) => Message(prop, ShouldBeOfType(k))
      case AnyValue => Message(prop, ShouldBeAnything)
      case OneOf(_) => Message(prop, ShouldMatchOneOf)
      case OneOfType(_) => Message(prop, ShouldBeOneOfType)
      case ArrayOf(_) => Message(prop, ShouldBeArrayOf)
      case ObjectOf(_) => Message(prop, ShouldBeObjectOf)
      case InstanceOf(_) => Message(prop, ShouldBeInstanceOf)
      case Shape(_) => Message(prop, ShouldMatchShape)
      case SchemaMatch(_) => Message(prop, ShouldMatchSchema)
      case RawSchemaAsDescriptor(_) => Message(prop, ShouldMatchSchema)
      case Custom(_, describe, _) => Message(prop, UserMessage(describe(prop, x)))
  }

  /** `after` is `before` with messages about `prop` appended, and nothing
      of `before` removed or changed. */
  predicate Extends(before: seq<Message>, after: seq<Message>, prop: string)
  {
    && |before| <= |after|
    && after[..|before|] == before
    && forall i :: |before| <= i < |after| ==> after[i].prop == prop
  }

  /** The `isRequiring` flag: set on `isRequired` links only. */
  predicate IsRequiring(t: Type)
  {
    t.IsRequired?
  }

  // Sizes that order the mutually recursive group below.

  function TypeSize(t: Type): (n: nat)
    ensures n >= 1
  {
    match t
    case Base(rule) => 1 + RuleSize(rule)
    case IsRequired(next) => 1 + TypeSize(next)
  }

  function RuleSize(r: Rule): nat
  {
    match r
    case OneOfType(subs) => 1 + TypesSize(subs)
    case ArrayOf(item) => 1 + TypeSize(item)
    case ObjectOf(item) => 1 + TypeSize(item)
    case Shape(schema) => 1 + SchemaSize(schema)
    case SchemaMatch(schema) => 1 + SchemaSize(schema)
    case _ => 1
  }

  function TypesSize(ts: seq<Type>): nat
  {
    if ts == [] then 0 else TypeSize(ts[0]) + TypesSize(ts[1..])
  }

  function SchemaSize(s: Schema): nat
  {
    if s == [] then 0 else SchemaSize(s[..|s| - 1]) + EntrySize(s[|s| - 1])
  }

  function EntrySize(e: (string, Type)): nat
  {
    TypeSize(e.1)
  }

  /** `type.validate(x)`. */
  function Accepts(t: Type, x: Value): Outcome<bool>
    decreases TypeSize(t), 0
  {
    assert t.Base? ==> TypeSize(t) == 1 + RuleSize(t.rule);
    match t
    case IsRequired(_) => Done(Existy(x))
    case Base(rule) =>
      match rule
      case Primitive(k) => Done(Is(KindTag(k), x))
      case AnyValue => Done(Existy(x))
      case OneOf(possibilities) => Done(IndexOf(possibilities, x) > -1)
      case OneOfType(subs) => SomeAccepts(subs, x)
      case ArrayOf(item) =>
        if x.Arr? then EveryAccepts(item, x.elems)
        else if x.Null? || x.Undefined? then Threw(PropertyOfAbsent)
        else Threw(EveryIsNotAFunction)
      case ObjectOf(item) =>
        var vs :- Values(x);
        EveryAccepts(item, vs)
      case InstanceOf(isInstance) => Done(isInstance(x))
      case Shape(schema) =>
        var errors :- Validate(schema, x, false);
        Done(errors.None?)
      case SchemaMatch(schema) =>
        var errors :- Validate(schema, x, false);
        Done(errors.None?)
      case RawSchemaAsDescriptor(_) => Threw(ValidateIsNotAFunction)
      case Custom(check, _, _) => Done(check(x))
  }

  /** `xs.every(y => item.validate(y))`, stopping at the first rejection. */
  function EveryAccepts(item: Type, xs: seq<Value>): Outcome<bool>
    decreases TypeSize(item), 1, |xs|
  {
    if xs == [] then Done(true)
    else
      var ok :- Accepts(item, xs[0]);
      if !ok then Done(false) else EveryAccepts(item, xs[1..])
  }

  /** `subs.some(sub => sub.validate(x))`, stopping at the first acceptance. */
  function SomeAccepts(subs: seq<Type>, x: Value): Outcome<bool>
    decreases TypesSize(subs), 1, |subs|
  {
    if subs == [] then Done(false)
    else
      var ok :- Accepts(subs[0], x);
      if ok then Done(true) else SomeAccepts(subs[1..], x)
  }

  /** `validateType(errors, ctx, type, val)`: an absent value passes every
      link but an `isRequired` one; a failing link appends its message. */
  function ValidateType(errors: seq<Message>, prop: string, t: Type, val: Value): (r: Outcome<seq<Message>>)
    ensures r.Done? ==> Extends(errors, r.value, prop) && |r.value| <= |errors| + 1
    decreases TypeSize(t), 1
  {
    if !Existy(val) && !IsRequiring(t) then Done(errors)
    else
      var passed :- Accepts(t, val);
      var m := MakeErrorMessage(t, prop, val);
      assert (errors + [m])[..|errors|] == errors;
      Done(if passed then errors else errors + [m])
  }

  /** `while (type.next) { type = type.next; newErrors = validateType(...) }`,
      starting after link t. */
  function ChainFrom(errors: seq<Message>, prop: string, t: Type, val: Value): (r: Outcome<seq<Message>>)
    decreases TypeSize(t), 2
  {
    match t
    case Base(_) => Done(errors)
    case IsRequired(next) =>
      var newErrors :- ValidateType(errors, prop, next, val);
      ChainFrom(newErrors, prop, next, val)
  }

  /** The reducer of `_validate` for one key. */
  function KeyStep(errors: seq<Message>, key: string, t: Type, obj: Value, failFast: bool): (r: Outcome<seq<Message>>)
    ensures failFast && |errors| > 0 ==> r == Done(errors)
    decreases TypeSize(t), 3
  {
    if failFast && |errors| > 0 then Done(errors)
    else
      var val :- Get(obj, key);
      var newErrors :- ValidateType(errors, key, t, val);
      if failFast && |newErrors| > 0 then Done(newErrors)
      else ChainFrom(newErrors, key, t, val)
  }

  /** `Object.keys(schema).reduce(reducer, [])`. */
  function Collect(schema: Schema, obj: Value, failFast: bool): Outcome<seq<Message>>
    decreases SchemaSize(schema), 4
  {
    if schema == [] then Done([])
    else
      assert SchemaSize(schema) == SchemaSize(schema[..|schema| - 1]) + TypeSize(schema[|schema| - 1].1);
      var errors :- Collect(schema[..|schema| - 1], obj, failFast);
      var (key, t) := schema[|schema| - 1];
      KeyStep(errors, key, t, obj, failFast)
  }

  /** The fold takes one more key after the keys before it. */
  lemma CollectSnoc(schema: Schema, key: string, t: Type, obj: Value, failFast: bool)
    ensures Collect(schema + [(key, t)], obj, failFast)
         == (if Collect(schema, obj, failFast).Threw? then Collect(schema, obj, failFast)
             else KeyStep(Collect(schema, obj, failFast).value, key, t, obj, failFast))
  {
    var s := schema + [(key, t)];
    assert s[..|s| - 1] == schema;
  }

  /** `_validate(schema, obj, { failFast })`: `None` stands for `null`. */
  function Validate(schema: Schema, obj: Value, failFast: bool): (r: Outcome<Option<seq<Message>>>)
    ensures r.Done? && r.value.Some? ==> |r.value.value| > 0
    ensures r.Threw? <==> Collect(schema, obj, failFast).Threw?
    decreases SchemaSize(schema), 5
  {
    var errors :- Collect(schema, obj, failFast);
    Done(if |errors| > 0 then Some(errors) else None)
  }

  /** `every` accepts exactly when each element is accepted. */
  lemma {:induction false} EveryAcceptsIff(item: Type, xs: seq<Value>)
    ensures EveryAccepts(item, xs) == Done(true) <==> forall i :: 0 <= i < |xs| ==> Accepts(item, xs[i]) == Done(true)
    decreases |xs|
  {
    if xs != [] {
      EveryAcceptsIff(item, xs[1..]);
      assert forall i :: 0 < i < |xs| ==> xs[i] == xs[1..][i - 1];
    }
  }

  /** `some` accepts exactly when a member accepts, provided no member throws;
      an acceptance always comes from some member. */
  lemma {:induction false} SomeAcceptsIff(subs: seq<Type>, x: Value)
    ensures SomeAccepts(subs, x) == Done(true) ==> exists i :: 0 <= i < |subs| && Accepts(subs[i], x) == Done(true)
    ensures (forall i :: 0 <= i < |subs| ==> Accepts(subs[i], x).Done?) ==>
      SomeAccepts(subs, x) == Done(exists i :: 0 <= i < |subs| && Accepts(subs[i], x) == Done(true))
    decreases |subs|
  {
    if subs != [] {
      SomeAcceptsIff(subs[1..], x);
      assert forall i :: 0 < i < |subs| ==> subs[i] == subs[1..][i - 1];
      if (exists i :: 0 < i < |subs| && Accepts(subs[i], x) == Done(true)) {
        var i :| 0 < i < |subs| && Accepts(subs[i], x) == Done(true);
        assert Accepts(subs[1..][i - 1], x) == Done(true);
      }
    }
  }

  /** `EveryAcceptsIff` for every list at once. */
  lemma EveryAcceptsAll(item: Type)
    ensures forall xs :: EveryAccepts(item, xs) == Done(true) <==> forall i :: 0 <= i < |xs| ==> Accepts(item, xs[i]) == Done(true)
  {
    forall xs {
      EveryAcceptsIff(item, xs);
    }
  }

  /** `SomeAcceptsIff` for every value at once. */
  lemma SomeAcceptsAll(subs: seq<Type>)
    ensures forall x :: SomeAccepts(subs, x) == Done(true) ==> exists i :: 0 <= i < |subs| && Accepts(subs[i], x) == Done(true)
    ensures forall x :: (forall i :: 0 <= i < |subs| ==> Accepts(subs[i], x).Done?) ==>
      SomeAccepts(subs, x) == Done(exists i :: 0 <= i < |subs| && Accepts(subs[i], x) == Done(true))
  {
    forall x {
      SomeAcceptsIff(subs, x);
    }
  }
}
