/** The descriptor factories of `types` in build/index.js, `asType`, the
    `isRequired` property and the `custom` factory with its construction-time
    check. */
module Types {
  import opened Outcomes
  import opened JsValues
  import opened K = Kisschema

  const StringType: Type := Base(Primitive(StringKind))
  const NumberType: Type := Base(Primitive(NumberKind))
  const BoolType: Type := Base(Primitive(BoolKind))
  const ObjectType: Type := Base(Primitive(ObjectKind))
  const ArrayType: Type := Base(Primitive(ArrayKind))
  const FuncType: Type := Base(Primitive(FuncKind))
  const AnyType: Type := Base(AnyValue)

  /** `type.isRequired`: present on every descriptor the factories return,
      and absent from the `isRequired` link itself. */
  function Required(t: Type): (r: Type)
    requires t.Base?
    ensures IsRequiring(r) && r.next == t
    ensures forall x :: Accepts(r, x) == Done(Existy(x))
  {
    IsRequired(t)
  }

  /** What the composite factories accept where a descriptor is expected. */
  datatype SchemaOrType = Descriptor(t: Type) | RawSchema(schema: Schema)

  predicate HasKey(schema: Schema, key: string)
  {
    exists i :: 0 <= i < |schema| && schema[i].0 == key
  }

  /** `asType(obj)`: anything with a truthy `validate` is taken to be a
      descriptor already; a raw schema is wrapped in a descriptor that holds
      when the engine finds no error. */
  function AsType(m: SchemaOrType): (r: Type)
    ensures m.Descriptor? ==> r == m.t
    ensures m.RawSchema? && !HasKey(m.schema, "validate") ==>
      forall x :: Accepts(r, x) == Accepts(Base(K.Shape(m.schema)), x)
    ensures m.RawSchema? && HasKey(m.schema, "validate") ==>
      forall x :: Accepts(r, x) == Threw(ValidateIsNotAFunction)
  {
    match m
    case Descriptor(t) => t
    case RawSchema(schema) =>
      if HasKey(schema, "validate") then Base(RawSchemaAsDescriptor(schema))
      else Base(SchemaMatch(schema))
  }

  /** `types.oneOf(possibilities)`; with no argument the list is empty. */
  function OneOf(possibilities: seq<Value>): (r: Type)
    ensures r.Base?
    ensures forall x :: Accepts(r, x) == Done(exists i :: 0 <= i < |possibilities| && StrictEquals(possibilities[i], x))
  {
    Base(K.OneOf(possibilities))
  }

  /** `types.oneOfType(schemaOrTypes)`: every member goes through `asType`
      once, at construction. */
  function OneOfType(schemaOrTypes: seq<SchemaOrType>): (r: Type)
    ensures r.Base?
    ensures forall x :: Accepts(r, x) == Done(true) ==>
      exists i :: 0 <= i < |schemaOrTypes| && Accepts(AsType(schemaOrTypes[i]), x) == Done(true)
    ensures forall x :: (forall i :: 0 <= i < |schemaOrTypes| ==> Accepts(AsType(schemaOrTypes[i]), x).Done?) ==>
      Accepts(r, x) == Done(exists i :: 0 <= i < |schemaOrTypes| && Accepts(AsType(schemaOrTypes[i]), x) == Done(true))
  {
    var subs := seq(|schemaOrTypes|, i requires 0 <= i < |schemaOrTypes| => AsType(schemaOrTypes[i]));
    SomeAcceptsAll(subs);
    assert forall x, i :: 0 <= i < |subs| ==> Accepts(subs[i], x) == Accepts(AsType(schemaOrTypes[i]), x);
    Base(K.OneOfType(subs))
  }

  /** `types.arrayOf(schemaOrType)`; with no argument it is the empty raw schema. */
  function ArrayOf(schemaOrType: SchemaOrType): (r: Type)
    ensures r.Base?
    ensures forall x: Value :: x.Arr? ==>
      (Accepts(r, x) == Done(true) <==> forall i :: 0 <= i < |x.elems| ==> Accepts(AsType(schemaOrType), x.elems[i]) == Done(true))
    ensures forall x: Value :: !x.Arr? ==> Accepts(r, x).Threw?
  {
    EveryAcceptsAll(AsType(schemaOrType));
    Base(K.ArrayOf(AsType(schemaOrType)))
  }

  /** `types.objectOf(schemaOrType)`; with no argument it is the empty raw schema. */
  function ObjectOf(schemaOrType: SchemaOrType): (r: Type)
    ensures r.Base?
    ensures forall x :: Accepts(r, x) == Done(true) <==>
      Values(x).Done? && forall i :: 0 <= i < |Values(x).value| ==> Accepts(AsType(schemaOrType), Values(x).value[i]) == Done(true)
    ensures forall x: Value :: x.Null? || x.Undefined? ==> Accepts(r, x) == Threw(KeysOfAbsent)
  {
    EveryAcceptsAll(AsType(schemaOrType));
    Base(K.ObjectOf(AsType(schemaOrType)))
  }

  /** `types.instanceOf(Constructor)`, the `instanceof` test given as a predicate. */
  function InstanceOf(isInstance: Value -> bool): (r: Type)
    ensures r.Base?
    ensures forall x :: Accepts(r, x) == Done(isInstance(x))
  {
    Base(K.InstanceOf(isInstance))
  }

  /** `types.shape(schema)`; with no argument the schema is empty. */
  function Shape(schema: Schema): (r: Type)
    ensures r.Base?
    ensures forall x :: Accepts(r, x) == Done(true) <==> Validate(schema, x, false) == Done(None)
  {
    Base(K.Shape(schema))
  }

  // `types.custom(type)`

  /** A JavaScript value that is not a function. */
  type NonFunction = v: Value | !v.Func? witness Undefined

  /** One property of the object handed to `custom`: not there at all, there
      with a value that is not a function, or a function (its identity and
      what it computes). */
  datatype Slot<F> = Missing | Given(v: NonFunction) | Fn(id: nat, f: F)

  /** The object handed to `custom`.  `toJSON` is given by the text its
      function returns. */
  datatype CustomDefinition = CustomDefinition(
    validate: Slot<Value -> bool>,
    makeErrorMessage: Slot<(string, Value) -> string>,
    toJSON: Slot<string>)

  function SlotFields<F>(key: string, slot: Slot<F>): seq<(string, Value)>
  {
    match slot
    case Missing => []
    case Given(v) => [(key, v)]
    case Fn(id, _) => [(key, Func(id))]
  }

  /** The value `obj[key]` reads for a slot. */
  function SlotValue<F>(slot: Slot<F>): Value
  {
    match slot
    case Missing => Undefined
    case Given(v) => v
    case Fn(id, _) => Func(id)
  }

  /** The definition as the JavaScript object the check inspects. */
  function DefinitionObject(d: CustomDefinition): Value
  {
    Obj(0, SlotFields("validate", d.validate)
         + SlotFields("makeErrorMessage", d.makeErrorMessage)
         + SlotFields("toJSON", d.toJSON))
  }

  /** The schema `custom` checks its argument against. */
  function CustomInterface(): Schema
  {
    [("validate", Required(FuncType)),
     ("makeErrorMessage", Required(FuncType)),
     ("toJSON", FuncType)]
  }

  /** What the check reports about one slot: a missing required function,
      or a present value that is not a function. */
  function SlotMessages<F>(key: string, slot: Slot<F>, required: bool): seq<Message>
  {
    match slot
    case Fn(_, _) => []
    case Missing => if required then [Message(key, MustNotBeAbsent)] else []
    case Given(v) =>
      if v.Null? || v.Undefined? then (if required then [Message(key, MustNotBeAbsent)] else [])
      else [Message(key, ShouldBeOfType(FuncKind))]
  }

  function CheckMessages(d: CustomDefinition): seq<Message>
  {
    SlotMessages("validate", d.validate, true)
    + SlotMessages("makeErrorMessage", d.makeErrorMessage, true)
    + SlotMessages("toJSON", d.toJSON, false)
  }

  /** The definition passes the check: both required functions are there, and
      `toJSON` is a function or is absent. */
  predicate Conforms(d: CustomDefinition)
  {
    && d.validate.Fn?
    && d.makeErrorMessage.Fn?
    && (d.toJSON.Given? ==> d.toJSON.v.Null? || d.toJSON.v.Undefined?)
  }

  function JsonOf(slot: Slot<string>): CustomJson
  {
    match slot
    case Missing => DefaultNotice
    case Given(v) => Overwritten(v)
    case Fn(_, text) => UserToJson(text)
  }

  const CustomNotice: string := "custom type - define a \"toJSON\" function for a better message here"

  /** The text of a custom descriptor's `toJSON()`, when it has a function there. */
  function CustomJsonText(j: CustomJson): Option<string>
  {
    match j
    case DefaultNotice => Some(CustomNotice)
    case UserToJson(text) => Some(text)
    case Overwritten(_) => None
  }

  lemma LookupDefinition(d: CustomDefinition)
    ensures Field(DefinitionObject(d), "validate") == SlotValue(d.validate)
    ensures Field(DefinitionObject(d), "makeErrorMessage") == SlotValue(d.makeErrorMessage)
    ensures Field(DefinitionObject(d), "toJSON") == SlotValue(d.toJSON)
  {
    var a, b, c := SlotFields("validate", d.validate),
                   SlotFields("makeErrorMessage", d.makeErrorMessage),
                   SlotFields("toJSON", d.toJSON);
    assert a + b + c == a + (b + c);
    LookupSlot("validate", d.validate, b + c);
    LookupConcat(a, b + c, "makeErrorMessage");
    LookupSlot("makeErrorMessage", d.makeErrorMessage, c);
    LookupConcat(a, b + c, "toJSON");
    LookupConcat(b, c, "toJSON");
    LookupSlot("toJSON", d.toJSON, []);
    assert c + [] == c;
  }

  lemma LookupSlot<F>(key: string, slot: Slot<F>, rest: seq<(string, Value)>)
    requires forall i :: 0 <= i < |rest| ==> rest[i].0 != key
    ensures Lookup(SlotFields(key, slot) + rest, key) == SlotValue(slot)
  {
    if slot.Missing? {
      assert SlotFields(key, slot) + rest == rest;
    } else {
      assert (SlotFields(key, slot) + rest)[0].0 == key;
    }
  }

  lemma {:induction false} LookupConcat(xs: seq<(string, Value)>, ys: seq<(string, Value)>, key: string)
    requires forall i :: 0 <= i < |xs| ==> xs[i].0 != key
    ensures Lookup(xs + ys, key) == Lookup(ys, key)
  {
    if xs == [] {
      assert xs + ys == ys;
    } else {
      assert (xs + ys)[0] == xs[0] && xs[0].0 != key;
      assert (xs + ys)[1..] == xs[1..] + ys;
      assert forall i :: 0 <= i < |xs[1..]| ==> xs[1..][i].0 == xs[i + 1].0;
      assert Lookup(xs + ys, key) == Lookup((xs + ys)[1..], key);
      LookupConcat(xs[1..], ys, key);
    }
  }

  /** One key of the check: the messages `custom`'s schema yields for a slot. */
  lemma SlotCheck<F>(errors: seq<Message>, key: string, slot: Slot<F>, required: bool, obj: Value)
    requires obj.Obj? && Field(obj, key) == SlotValue(slot)
    ensures KeyStep(errors, key, if required then Required(FuncType) else FuncType, obj, false)
         == Done(errors + SlotMessages(key, slot, required))
  {
    var val := SlotValue(slot);
    assert Get(obj, key) == Done(val);
    assert errors + [] == errors;
    var absent := val.Null? || val.Undefined?;
    // What the `func` link adds.
    var e := if val.Func? || absent then errors else errors + [Message(key, ShouldBeOfType(FuncKind))];
    assert ValidateType(errors, key, FuncType, val) == Done(e);
    assert ChainFrom(e, key, FuncType, val) == Done(e);
    if required {
      var t := IsRequired(FuncType);
      // What the `isRequired` link adds; then the chain reaches `func`.
      var r := if absent then errors + [Message(key, MustNotBeAbsent)] else errors;
      assert ValidateType(errors, key, t, val) == Done(r);
      assert ValidateType(r, key, FuncType, val) == Done(if absent then r else e);
      assert KeyStep(errors, key, t, obj, false) == ChainFrom(r, key, t, val);
      assert ChainFrom(r, key, t, val) == ChainFrom(if absent then r else e, key, FuncType, val);
    } else {
      assert KeyStep(errors, key, FuncType, obj, false) == ChainFrom(e, key, FuncType, val);
    }
  }

  /** The construction check of `custom` reports, in key order, each
      required function that is missing and each present value that is not a
      function; it never throws. */
  lemma {:induction false} CustomCheck(d: CustomDefinition)
    ensures Validate(CustomInterface(), DefinitionObject(d), false)
         == Done(if Conforms(d) then None else Some(CheckMessages(d)))
  {
    var obj := DefinitionObject(d);
    var e1 := SlotMessages("validate", d.validate, true);
    var e2 := e1 + SlotMessages("makeErrorMessage", d.makeErrorMessage, true);
    var s1 := [("validate", Required(FuncType))];
    var s2 := s1 + [("makeErrorMessage", Required(FuncType))];
    assert Collect(s1, obj, false) == Done(e1) by {
      LookupDefinition(d);
      SlotCheck([], "validate", d.validate, true, obj);
      assert [] + s1 == s1;
      CollectSnoc([], "validate", Required(FuncType), obj, false);
      assert [] + e1 == e1;
    }
    assert Collect(s2, obj, false) == Done(e2) by {
      LookupDefinition(d);
      SlotCheck(e1, "makeErrorMessage", d.makeErrorMessage, true, obj);
      CollectSnoc(s1, "makeErrorMessage", Required(FuncType), obj, false);
    }
    assert Collect(CustomInterface(), obj, false) == Done(CheckMessages(d)) by {
      LookupDefinition(d);
      SlotCheck(e2, "toJSON", d.toJSON, false, obj);
      CollectSnoc(s2, "toJSON", FuncType, obj, false);
      assert s2 + [("toJSON", FuncType)] == CustomInterface();
    }
    CheckMessagesEmpty(d);
  }

  lemma CheckMessagesEmpty(d: CustomDefinition)
    ensures |CheckMessages(d)| == 0 <==> Conforms(d)
  {
  }

  /** `types.custom(type)`: throws an `Error` carrying the check's messages,
      or builds a descriptor from the user's functions, with the library's
      notice as `toJSON` unless the user supplied one. */
  function Custom(d: CustomDefinition): (r: Result<Type, seq<Message>>)
    ensures r.Failure? <==> !Conforms(d)
    ensures r.Failure? ==> r.error == CheckMessages(d) && |r.error| > 0
    ensures r.Success? ==> r.value.Base? && r.value.rule.Custom?
    ensures r.Success? ==> forall x :: Accepts(r.value, x) == Done(d.validate.f(x))
    ensures r.Success? ==> forall p, x :: MakeErrorMessage(r.value, p, x) == Message(p, UserMessage(d.makeErrorMessage.f(p, x)))
    ensures r.Success? && d.toJSON.Fn? ==> CustomJsonText(r.value.rule.json) == Some(d.toJSON.f)
    ensures r.Success? && d.toJSON.Missing? ==> CustomJsonText(r.value.rule.json) == Some(CustomNotice)
  {
    CustomCheck(d);
    if !Conforms(d) then Failure(CheckMessages(d))
    else Success(Base(K.Custom(d.validate.f, d.makeErrorMessage.f, JsonOf(d.toJSON))))
  }
}
