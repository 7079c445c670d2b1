/** What each descriptor of `types` accepts, stated against the source's
    promise for it, and how the `isRequired` link combines with the engine's
    rule that an absent value is skipped. */
module DescriptorLaws {
  import opened Outcomes
  import opened JsValues
  import opened Kisschema
  import T = Types
  import opened EngineLaws

  // Primitive descriptors

  /** A primitive descriptor accepts exactly the values of its runtime tag,
      so no two primitive descriptors accept the same value and nothing is
      coerced; its message names the type. */
  lemma Primitives(k: Kind, x: Value, prop: string)
    ensures Accepts(Base(Primitive(k)), x) == Done(Tag(x) == KindTag(k))
    ensures forall k' :: k' != k && Accepts(Base(Primitive(k)), x) == Done(true) ==>
      Accepts(Base(Primitive(k')), x) == Done(false)
    ensures Text(MakeErrorMessage(Base(Primitive(k)), prop, x)) == prop + " should be of type: " + KindName(k)
  {
  }

  /** `any` accepts every present value, yet on its own in a schema it never
      reports: an absent value is skipped before `validate` is asked. */
  lemma AnyAloneNeverReports(errors: seq<Message>, key: string, obj: Value, failFast: bool)
    requires Existy(obj)
    ensures forall x :: Accepts(T.AnyType, x) == Done(Existy(x))
    ensures KeyStep(errors, key, T.AnyType, obj, failFast) == Done(errors)
  {
    ExistyIsPresence(obj);
    assert Get(obj, key) == Done(Field(obj, key));
  }

  // isRequired

  /** A non-required link skips an absent value without a message. */
  lemma AbsentSkipped(errors: seq<Message>, prop: string, t: Type, val: Value)
    requires !Existy(val) && t.Base?
    ensures ValidateType(errors, prop, t, val) == Done(errors)
  {
  }

  /** A key whose descriptor is `base.isRequired`: an absent value yields
      exactly the one "must not be null or undefined" message, a present
      value of the wrong type only the base descriptor's message, and a
      present value of the right type nothing; the same with `failFast`. */
  lemma RequiredKey(key: string, base: Type, obj: Value, failFast: bool)
    requires base.Base? && Existy(obj)
    ensures var val := Field(obj, key);
      && (!Existy(val) ==> KeyStep([], key, T.Required(base), obj, failFast) == Done([Message(key, MustNotBeAbsent)]))
      && (Existy(val) && Accepts(base, val) == Done(false) ==>
            KeyStep([], key, T.Required(base), obj, failFast) == Done([MakeErrorMessage(base, key, val)]))
      && (Existy(val) && Accepts(base, val) == Done(true) ==>
            KeyStep([], key, T.Required(base), obj, failFast) == Done([]))
    ensures Text(Message(key, MustNotBeAbsent)) == key + " must not be null or undefined"
  {
    ExistyIsPresence(obj);
    var val := Field(obj, key);
    var t := T.Required(base);
    assert Get(obj, key) == Done(val);
    if !Existy(val) {
      var m := [Message(key, MustNotBeAbsent)];
      assert Accepts(t, val) == Done(false);
      assert MakeErrorMessage(t, key, val) == Message(key, MustNotBeAbsent);
      assert [] + [Message(key, MustNotBeAbsent)] == m;
      assert ValidateType([], key, t, val) == Done(m);
      assert ChainFrom(m, key, base, val) == Done(m);
      assert ValidateType(m, key, base, val) == Done(m);
      assert ChainFrom(m, key, t, val) == Done(m);
    } else {
      assert Accepts(t, val) == Done(true);
      assert ValidateType([], key, t, val) == Done([]);
      assert KeyStep([], key, t, obj, failFast) == ChainFrom([], key, t, val);
      if Accepts(base, val).Done? {
        var m := if Accepts(base, val).value then [] else [MakeErrorMessage(base, key, val)];
        assert [] + [MakeErrorMessage(base, key, val)] == [MakeErrorMessage(base, key, val)];
        assert ValidateType([], key, base, val) == Done(m);
        assert ChainFrom(m, key, base, val) == Done(m);
        assert ChainFrom([], key, t, val) == Done(m);
      }
    }
  }

  /** The `isRequired` link asks for presence only: a present value of the
      wrong type passes the link itself and is left to the base descriptor. */
  lemma RequiredLinkIgnoresType()
    ensures Accepts(T.Required(T.StringType), Num(1)) == Done(true)
    ensures Accepts(T.Required(T.StringType), Null) == Done(false)
    ensures Accepts(T.StringType, Num(1)) == Done(false)
  {
  }

  // every / some

  // oneOf and oneOfType

  /** `oneOf(p)` accepts x exactly when x is strictly equal to an element of
      p: by value for primitives, by identity for objects. */
  lemma OneOfIff(possibilities: seq<Value>, x: Value)
    ensures Accepts(T.OneOf(possibilities), x) == Done(exists i :: 0 <= i < |possibilities| && StrictEquals(possibilities[i], x))
  {
  }

  /** Two distinct objects with the same content are not the same choice. */
  lemma OneOfComparesIdentity()
    ensures Accepts(T.OneOf([Obj(1, [])]), Obj(2, [])) == Done(false)
    ensures Accepts(T.OneOf([Str("a"), Str("b"), Str("c")]), Str("a")) == Done(true)
    ensures Accepts(T.OneOf([Str("a"), Str("b"), Str("c")]), Str("d")) == Done(false)
  {
    assert StrictEquals(Str("a"), Str("a"));
    assert !StrictEquals(Str("a"), Str("d")) && !StrictEquals(Str("b"), Str("d")) && !StrictEquals(Str("c"), Str("d"));
  }

  /** `oneOfType(members)` accepts x exactly when a member, after `asType`,
      accepts it (provided no member throws), so no member means no value. */
  lemma OneOfTypeIff(members: seq<T.SchemaOrType>, x: Value)
    ensures Accepts(T.OneOfType(members), x) == Done(true) ==>
      exists i :: 0 <= i < |members| && Accepts(T.AsType(members[i]), x) == Done(true)
    ensures (forall i :: 0 <= i < |members| ==> Accepts(T.AsType(members[i]), x).Done?) ==>
      Accepts(T.OneOfType(members), x) == Done(exists i :: 0 <= i < |members| && Accepts(T.AsType(members[i]), x) == Done(true))
    ensures members == [] ==> Accepts(T.OneOfType(members), x) == Done(false)
  {
    var t := T.OneOfType(members);
    SomeAcceptsIff(t.rule.subs, x);
  }

  // arrayOf and objectOf

  /** `arrayOf(m)` accepts an array exactly when `asType(m)` accepts every
      element, so the empty array always; on a value that is not an array the
      source throws. */
  lemma ArrayOfIff(m: T.SchemaOrType, x: Value)
    ensures x.Arr? ==>
      (Accepts(T.ArrayOf(m), x) == Done(true) <==> forall i :: 0 <= i < |x.elems| ==> Accepts(T.AsType(m), x.elems[i]) == Done(true))
    ensures x.Arr? && x.elems == [] ==> Accepts(T.ArrayOf(m), x) == Done(true)
    ensures !x.Arr? ==> Accepts(T.ArrayOf(m), x).Threw?
  {
    if x.Arr? {
      EveryAcceptsIff(T.AsType(m), x.elems);
    }
  }

  /** `objectOf(m)` accepts x exactly when `values(x)` can be taken and
      `asType(m)` accepts each of them, so the empty object always. */
  lemma ObjectOfIff(m: T.SchemaOrType, x: Value)
    ensures Accepts(T.ObjectOf(m), x) == Done(true) <==>
      Values(x).Done? && forall i :: 0 <= i < |Values(x).value| ==> Accepts(T.AsType(m), Values(x).value[i]) == Done(true)
    ensures x.Obj? && x.fields == [] ==> Accepts(T.ObjectOf(m), x) == Done(true)
    ensures x.Null? || x.Undefined? ==> Accepts(T.ObjectOf(m), x) == Threw(KeysOfAbsent)
  {
    if Values(x).Done? {
      EveryAcceptsIff(T.AsType(m), Values(x).value);
    }
  }

  /** `values` spreads array-valued entries one level: a value comes out of
      it exactly when it is a non-array entry or an element of an array entry. */
  lemma {:induction false} SpreadAllMembers(vs: seq<Value>, v: Value)
    ensures v in SpreadAll(vs) <==> exists i :: 0 <= i < |vs| && v in Spread(vs[i])
  {
    if vs != [] {
      var n := |vs| - 1;
      SpreadAllMembers(vs[..n], v);
      assert forall i :: 0 <= i < n ==> vs[..n][i] == vs[i];
    }
  }

  /** Entries that are not arrays come out of `values` as they are. */
  lemma {:induction false} SpreadAllNoArrays(vs: seq<Value>)
    requires forall i :: 0 <= i < |vs| ==> !vs[i].Arr?
    ensures SpreadAll(vs) == vs
  {
    if vs != [] {
      var n := |vs| - 1;
      SpreadAllNoArrays(vs[..n]);
      assert vs[..n] + [vs[n]] == vs;
    }
  }

  /** On an object without array-valued fields, `objectOf(m)` accepts exactly
      when `asType(m)` accepts every field value. */
  lemma ObjectOfPlainObject(m: T.SchemaOrType, id: nat, fields: seq<(string, Value)>)
    requires forall i :: 0 <= i < |fields| ==> !fields[i].1.Arr?
    ensures Accepts(T.ObjectOf(m), Obj(id, fields)) == Done(true) <==>
      forall i :: 0 <= i < |fields| ==> Accepts(T.AsType(m), fields[i].1) == Done(true)
  {
    var vs := FieldValues(fields);
    SpreadAllNoArrays(vs);
    assert Values(Obj(id, fields)) == Done(vs);
    ObjectOfIff(m, Obj(id, fields));
  }

  /** Because of the spreading, `objectOf(array)` checks the elements of an
      array-valued field rather than the array, and rejects it. */
  lemma ObjectOfSpreadsArrays()
    ensures Accepts(T.ObjectOf(T.Descriptor(T.ArrayType)), Obj(0, [("a", Arr(1, [Num(1)]))])) == Done(false)
  {
    var vs := FieldValues([("a", Arr(1, [Num(1)]))]);
    assert vs == [Arr(1, [Num(1)])];
    assert SpreadAll(vs[..0]) == [] by {
      assert vs[..0] == [];
    }
    assert SpreadAll(vs) == [Num(1)] by {
      assert SpreadAll(vs) == SpreadAll(vs[..0]) + Spread(vs[0]);
      assert Spread(vs[0]) == [Num(1)];
    }
    assert Accepts(T.ArrayType, Num(1)) == Done(false);
    assert EveryAccepts(T.ArrayType, [Num(1)]) == Done(false);
  }

  /** Likewise `objectOf(number)` accepts an object whose one field is an
      array of numbers. */
  lemma ObjectOfSpreadsArrayOfNumbers()
    ensures Accepts(T.ObjectOf(T.Descriptor(T.NumberType)), Obj(0, [("a", Arr(1, [Num(1), Num(2)]))])) == Done(true)
  {
    var xs := [Num(1), Num(2)];
    var vs := FieldValues([("a", Arr(1, xs))]);
    assert vs == [Arr(1, xs)];
    assert SpreadAll(vs[..0]) == [] by {
      assert vs[..0] == [];
    }
    assert SpreadAll(vs) == xs by {
      assert SpreadAll(vs) == SpreadAll(vs[..0]) + Spread(vs[0]);
      assert Spread(vs[0]) == xs;
    }
    EveryAcceptsIff(T.NumberType, xs);
  }

  /** `objectOf` accepts a number, whose `Object.keys` is empty. */
  lemma ObjectOfNonObject(m: T.SchemaOrType)
    ensures Accepts(T.ObjectOf(m), Num(5)) == Done(true)
    ensures Accepts(T.ObjectOf(m), Bool(true)) == Done(true)
  {
  }

  // shape and asType

  /** `shape(s)` accepts x exactly when `_validate(s, x)` is `null`, that is,
      when no link of any key of s fails on x. */
  lemma ShapeIff(schema: Schema, x: Value)
    ensures Accepts(T.Shape(schema), x) == Done(true) <==> Validate(schema, x, false) == Done(None)
    ensures Validate(schema, x, false).Done? ==>
      (Accepts(T.Shape(schema), x) == Done(true) <==> NoLinkFails(schema, x))
  {
    if Validate(schema, x, false).Done? {
      ValidateNullIff(schema, x);
    }
  }

  /** A raw schema given where a descriptor is expected is checked with the
      rule of `shape`, unless it has a key named `validate`: then `asType`
      takes it for a descriptor and every check of an element throws. */
  lemma RawSchemaMember(schema: Schema, xs: seq<Value>)
    ensures !T.HasKey(schema, "validate") ==>
      (Accepts(T.ArrayOf(T.RawSchema(schema)), Arr(0, xs)) == Done(true) <==>
       forall i :: 0 <= i < |xs| ==> Accepts(T.Shape(schema), xs[i]) == Done(true))
    ensures T.HasKey(schema, "validate") && xs != [] ==>
      Accepts(T.ArrayOf(T.RawSchema(schema)), Arr(0, xs)) == Threw(ValidateIsNotAFunction)
  {
    ArrayOfIff(T.RawSchema(schema), Arr(0, xs));
  }

  /** `shape` of a non-empty schema throws on null or undefined, as happens to
      a `null` element of an `arrayOf(shape(...))`. */
  lemma ShapeOfAbsent(schema: Schema, x: Value)
    requires schema != [] && (x.Null? || x.Undefined?)
    ensures Accepts(T.Shape(schema), x) == Threw(PropertyOfAbsent)
  {
    var prefix := schema[..|schema| - 1];
    if Collect(prefix, x, false).Done? {
      assert Get(x, schema[|schema| - 1].0) == Threw(PropertyOfAbsent);
      assert KeyStep(Collect(prefix, x, false).value, schema[|schema| - 1].0, schema[|schema| - 1].1, x, false)
          == Threw(PropertyOfAbsent);
      assert Collect(schema, x, false) == Threw(PropertyOfAbsent);
    } else {
      ShapeOfAbsentPrefix(prefix, x);
      assert Collect(schema, x, false) == Collect(prefix, x, false);
    }
  }

  lemma {:induction false} ShapeOfAbsentPrefix(schema: Schema, x: Value)
    requires x.Null? || x.Undefined?
    ensures Collect(schema, x, false).Threw? ==> Collect(schema, x, false) == Threw(PropertyOfAbsent)
  {
    if schema != [] {
      ShapeOfAbsentPrefix(schema[..|schema| - 1], x);
    }
  }

  /** `shape({ a: shape({ b: number.isRequired }) })` rejects a subject whose
      `a` lacks `b`, and accepts one whose `a.b` is a number. */
  lemma NestedShape()
    ensures var t := T.Shape([("a", T.Shape([("b", T.Required(T.NumberType))]))]);
      && Accepts(t, Obj(0, [("a", Obj(1, []))])) == Done(false)
      && Accepts(t, Obj(0, [("a", Obj(1, [("b", Num(2))]))])) == Done(true)
  {
    var inner: Schema := [("b", T.Required(T.NumberType))];
    var outer: Schema := [("a", T.Shape(inner))];
    var m := [Message("b", MustNotBeAbsent)];
    assert Validate(inner, Obj(1, []), false) == Done(Some(m)) by {
      assert inner[..0] == [];
      assert Field(Obj(1, []), "b") == Undefined;
      assert [] + m == m;
      assert ValidateType([], "b", inner[0].1, Undefined) == Done(m);
      assert ChainFrom(m, "b", inner[0].1, Undefined) == Done(m);
      assert KeyStep([], "b", inner[0].1, Obj(1, []), false) == Done(m);
      assert Collect(inner, Obj(1, []), false) == Done(m);
    }
    assert Validate(inner, Obj(1, [("b", Num(2))]), false) == Done(None) by {
      assert inner[..0] == [];
      assert Field(Obj(1, [("b", Num(2))]), "b") == Num(2);
      assert ValidateType([], "b", inner[0].1, Num(2)) == Done([]);
      assert ChainFrom([], "b", inner[0].1, Num(2)) == Done([]);
      assert KeyStep([], "b", inner[0].1, Obj(1, [("b", Num(2))]), false) == Done([]);
      assert Collect(inner, Obj(1, [("b", Num(2))]), false) == Done([]);
    }
    var bad := Obj(0, [("a", Obj(1, []))]);
    var ma := [Message("a", ShouldMatchShape)];
    assert Validate(outer, bad, false) == Done(Some(ma)) by {
      assert outer[..0] == [];
      assert Field(bad, "a") == Obj(1, []);
      assert Accepts(outer[0].1, Obj(1, [])) == Done(false);
      assert [] + ma == ma;
      assert ValidateType([], "a", outer[0].1, Obj(1, [])) == Done(ma);
      assert KeyStep([], "a", outer[0].1, bad, false) == Done(ma);
      assert Collect(outer, bad, false) == Done(ma);
    }
    var good := Obj(0, [("a", Obj(1, [("b", Num(2))]))]);
    assert Validate(outer, good, false) == Done(None) by {
      assert outer[..0] == [];
      assert Field(good, "a") == Obj(1, [("b", Num(2))]);
      assert Accepts(outer[0].1, Obj(1, [("b", Num(2))])) == Done(true);
      assert ValidateType([], "a", outer[0].1, Obj(1, [("b", Num(2))])) == Done([]);
      assert KeyStep([], "a", outer[0].1, good, false) == Done([]);
      assert Collect(outer, good, false) == Done([]);
    }
  }

  // Factories called without an argument

  /** `oneOf()` and `oneOfType()` take an empty list and accept nothing;
      `instanceOf()` takes a fresh constructor no value is an instance of. */
  lemma DefaultChoices(x: Value)
    ensures Accepts(T.OneOf([]), x) == Done(false)
    ensures Accepts(T.OneOfType([]), x) == Done(false)
    ensures Accepts(T.InstanceOf(_ => false), x) == Done(false)
  {
    OneOfTypeIff([], x);
  }

  /** `arrayOf()` and `objectOf()` take the empty raw schema, which matches
      everything, so they accept every array and every present value;
      `shape()` takes the empty schema and accepts everything. */
  lemma DefaultSchemas(x: Value)
    ensures x.Arr? ==> Accepts(T.ArrayOf(T.RawSchema([])), x) == Done(true)
    ensures !(x.Null? || x.Undefined?) ==> Accepts(T.ObjectOf(T.RawSchema([])), x) == Done(true)
    ensures Accepts(T.Shape([]), x) == Done(true)
  {
    assert Validate([], x, false) == Done(None);
    EveryAllPass(Base(SchemaMatch([])), if x.Arr? then x.elems else []);
    if !(x.Null? || x.Undefined?) {
      var vs :| Values(x) == Done(vs);
      EveryAllPass(Base(SchemaMatch([])), vs);
    }
  }

  /** `custom()` takes `{}` and is refused with the two `isRequired`
      messages. */
  lemma DefaultCustom()
    ensures T.Custom(T.CustomDefinition(T.Missing, T.Missing, T.Missing))
         == Failure([Message("validate", MustNotBeAbsent), Message("makeErrorMessage", MustNotBeAbsent)])
  {
    var none := T.CustomDefinition(T.Missing, T.Missing, T.Missing);
    assert T.CheckMessages(none) == [Message("validate", MustNotBeAbsent), Message("makeErrorMessage", MustNotBeAbsent)];
  }

  /** Every value passes the empty schema, so a list of values all pass it. */
  lemma {:induction false} EveryAllPass(item: Type, xs: seq<Value>)
    requires item == Base(SchemaMatch([]))
    ensures EveryAccepts(item, xs) == Done(true)
  {
    if xs != [] {
      assert Accepts(item, xs[0]) == Done(true);
      EveryAllPass(item, xs[1..]);
    }
  }
}
