/** The behaviours the repository's tests expect of `validate` and `enforce`,
    evaluated on the model with the same schemas and subjects. */
module Scenarios {
  import opened Outcomes
  import opened JsValues
  import opened Kisschema
  import T = Types
  import Engine

  /** `validate({ a: string, b: number }, { a: '1', b: 1 })` is `null`. */
  lemma AllPassed()
    ensures Validate([("a", T.StringType), ("b", T.NumberType)], Obj(0, [("a", Str("1")), ("b", Num(1))]), false) == Done(None)
  {
    var schema := [("a", T.StringType), ("b", T.NumberType)];
    var obj := Obj(0, [("a", Str("1")), ("b", Num(1))]);
    assert Collect(schema[..1], obj, false) == Done([]) by {
      assert schema[..1][..0] == [];
    }
    assert Collect(schema, obj, false) == Done([]) by {
      assert obj.fields[1..] == [("b", Num(1))];
      assert Field(obj, "b") == Num(1);
    }
  }

  /** `enforce` hands back the very subject that passed. */
  lemma EnforcePassesSubject()
    ensures var obj := Obj(0, [("a", Str("1")), ("b", Num(1))]);
      Engine.Enforce([("a", T.StringType), ("b", T.NumberType)], obj, false) == Done(Engine.Subject(obj))
  {
    AllPassed();
  }

  /** `enforce({ a: string, b: number }, { a: '1', b: '1' })` returns an
      error carrying the one message for `b`. */
  lemma EnforceRefuses()
    ensures Engine.Enforce([("a", T.StringType), ("b", T.NumberType)], Obj(0, [("a", Str("1")), ("b", Str("1"))]), false)
         == Done(Engine.ErrorObject([Message("b", ShouldBeOfType(NumberKind))]))
  {
    var schema := [("a", T.StringType), ("b", T.NumberType)];
    var obj := Obj(0, [("a", Str("1")), ("b", Str("1"))]);
    var m := [Message("b", ShouldBeOfType(NumberKind))];
    assert Collect(schema[..1], obj, false) == Done([]) by {
      assert schema[..1][..0] == [];
    }
    assert Collect(schema, obj, false) == Done(m) by {
      assert obj.fields[1..] == [("b", Str("1"))];
      assert Field(obj, "b") == Str("1");
      assert Accepts(T.NumberType, Str("1")) == Done(false);
      assert [] + m == m;
      assert ValidateType([], "b", T.NumberType, Str("1")) == Done(m);
    }
  }

  /** `{ a: array, b: string, c: object }` against `{ a: '1', b: 1, c: {} }`
      yields the messages for `a` and for `b`, in key order. */
  lemma TwoFailures()
    ensures var schema := [("a", T.ArrayType), ("b", T.StringType), ("c", T.ObjectType)];
      var obj := Obj(0, [("a", Str("1")), ("b", Num(1)), ("c", Obj(1, []))]);
      Validate(schema, obj, false) == Done(Some([Message("a", ShouldBeOfType(ArrayKind)), Message("b", ShouldBeOfType(StringKind))]))
  {
    var schema := [("a", T.ArrayType), ("b", T.StringType), ("c", T.ObjectType)];
    var obj := Obj(0, [("a", Str("1")), ("b", Num(1)), ("c", Obj(1, []))]);
    var m1 := [Message("a", ShouldBeOfType(ArrayKind))];
    var m2 := m1 + [Message("b", ShouldBeOfType(StringKind))];
    assert Collect(schema[..1], obj, false) == Done(m1) by {
      assert schema[..1][..0] == [];
      assert Field(obj, "a") == Str("1");
      assert Accepts(T.ArrayType, Str("1")) == Done(false);
      assert [] + m1 == m1;
      assert ValidateType([], "a", T.ArrayType, Str("1")) == Done(m1);
    }
    assert Collect(schema[..2], obj, false) == Done(m2) by {
      assert schema[..2][..1] == schema[..1];
      assert obj.fields[1..] == [("b", Num(1)), ("c", Obj(1, []))];
      assert Field(obj, "b") == Num(1);
      assert ValidateType(m1, "b", T.StringType, Num(1)) == Done(m2);
    }
    assert Collect(schema, obj, false) == Done(m2) by {
      assert schema[..3][..2] == schema[..2];
      assert obj.fields[1..][1..] == [("c", Obj(1, []))];
      assert Field(obj, "c") == Obj(1, []);
      assert ValidateType(m2, "c", T.ObjectType, Obj(1, [])) == Done(m2);
    }
    assert m2 == [Message("a", ShouldBeOfType(ArrayKind)), Message("b", ShouldBeOfType(StringKind))];
  }

  /** With `a: string.isRequired` and `a` missing, the one message is the
      `isRequired` link's. */
  lemma RequiredRespected()
    ensures var schema := [("a", T.Required(T.StringType)), ("b", T.NumberType)];
      Validate(schema, Obj(0, [("b", Num(1))]), false) == Done(Some([Message("a", MustNotBeAbsent)]))
  {
    var schema := [("a", T.Required(T.StringType)), ("b", T.NumberType)];
    var obj := Obj(0, [("b", Num(1))]);
    var m := [Message("a", MustNotBeAbsent)];
    assert Collect(schema[..1], obj, false) == Done(m) by {
      assert schema[..1][..0] == [];
      assert obj.fields[1..] == [];
      assert Field(obj, "a") == Undefined;
      assert Accepts(schema[0].1, Undefined) == Done(false);
      assert [] + m == m;
      assert ValidateType([], "a", schema[0].1, Undefined) == Done(m);
      assert ChainFrom(m, "a", schema[0].1, Undefined) == Done(m);
    }
    assert Collect(schema, obj, false) == Done(m);
  }

  /** `{ a: string.isRequired, b: number }` against `{ b: '1' }`: two
      messages without `failFast`, only the first with it. */
  lemma FailFastStopsEarly()
    ensures var schema := [("a", T.Required(T.StringType)), ("b", T.NumberType)];
      var obj := Obj(0, [("b", Str("1"))]);
      && Validate(schema, obj, false) == Done(Some([Message("a", MustNotBeAbsent), Message("b", ShouldBeOfType(NumberKind))]))
      && Validate(schema, obj, true) == Done(Some([Message("a", MustNotBeAbsent)]))
  {
    var schema := [("a", T.Required(T.StringType)), ("b", T.NumberType)];
    var obj := Obj(0, [("b", Str("1"))]);
    var m := [Message("a", MustNotBeAbsent)];
    assert obj.fields[1..] == [];
    assert Field(obj, "a") == Undefined;
    assert Accepts(schema[0].1, Undefined) == Done(false);
    assert [] + m == m;
    assert ValidateType([], "a", schema[0].1, Undefined) == Done(m);
    assert Collect(schema[..1], obj, false) == Done(m) by {
      assert schema[..1][..0] == [];
      assert ChainFrom(m, "a", schema[0].1, Undefined) == Done(m);
    }
    assert Collect(schema[..1], obj, true) == Done(m) by {
      assert schema[..1][..0] == [];
    }
    assert Collect(schema, obj, false) == Done(m + [Message("b", ShouldBeOfType(NumberKind))]) by {
      assert Field(obj, "b") == Str("1");
      assert Accepts(T.NumberType, Str("1")) == Done(false);
      assert ValidateType(m, "b", T.NumberType, Str("1")) == Done(m + [Message("b", ShouldBeOfType(NumberKind))]);
    }
    assert Collect(schema, obj, true) == Done(m);
    assert m + [Message("b", ShouldBeOfType(NumberKind))] == [Message("a", MustNotBeAbsent), Message("b", ShouldBeOfType(NumberKind))];
  }

  /** The email check of the examples: a character, an `@`, a character. */
  predicate EmailLike(x: Value)
  {
    x.Str? && exists i :: 1 <= i < |x.s| - 1 && x.s[i] == '@'
  }

  /** The examples' message; a value that is not a string shows as the
      empty string, JavaScript's conversion of it being left out. */
  function EmailMessage(prop: string, x: Value): string
  {
    "Error " + prop + ": '" + (if x.Str? then x.s else "") + "' doesn't really look like an email, dude"
  }

  const EmailDefinition: T.CustomDefinition :=
    T.CustomDefinition(T.Fn(1, EmailLike), T.Fn(2, EmailMessage), T.Missing)

  /** The examples' `Author` schema: `name: string.isRequired`,
      `email: emailType.isRequired`, `bookIds: arrayOf(string)`. */
  function Author(email: Type): Schema
  {
    [("name", T.Required(T.StringType)), ("email", IsRequired(email)), ("bookIds", T.ArrayOf(T.Descriptor(T.StringType)))]
  }

  /** `custom` accepts the email definition; the type it returns accepts
      the examples' address and rejects `'bob'` with the user's message. */
  lemma EmailType()
    ensures T.Custom(EmailDefinition).Success?
    ensures var email := T.Custom(EmailDefinition).value;
      && Accepts(email, Str("bob@cobb.com")) == Done(true)
      && Accepts(email, Str("bob")) == Done(false)
      && Text(MakeErrorMessage(email, "email", Str("bob"))) == EmailMessage("email", Str("bob"))
  {
    assert T.Conforms(EmailDefinition);
    assert Str("bob@cobb.com").s[3] == '@';
    assert EmailLike(Str("bob@cobb.com"));
    assert !EmailLike(Str("bob"));
    var email := T.Custom(EmailDefinition).value;
    assert MakeErrorMessage(email, "email", Str("bob")) == Message("email", UserMessage(EmailMessage("email", Str("bob"))));
  }

  /** The examples' message names the key after `Error ` and shows the
      string between single quotes. */
  lemma EmailMessageQuotes(prop: string, str: string)
    ensures var m := EmailMessage(prop, Str(str)); var k := |prop| + 9;
      && |m| == k + |str| + 41
      && m[..6] == "Error " && m[6..6 + |prop|] == prop
      && m[k - 1] == '\'' && m[k..k + |str|] == str && m[k + |str|] == '\''
  {
    var m := EmailMessage(prop, Str(str));
    var k := |prop| + 9;
    var head := "Error " + prop + ": '";
    assert m == head + str + "' doesn't really look like an email, dude";
    assert |head| == k;
    assert m[..6] == head[..6] == "Error ";
    assert m[6..6 + |prop|] == head[6..6 + |prop|] == prop;
    assert m[k - 1] == head[k - 1] == '\'';
    var tail := "' doesn't really look like an email, dude";
    assert m[k..k + |str|] == str;
    assert m[k + |str|] == tail[0] == '\'';
  }

  /** A key whose value is present and accepted by its base descriptor adds
      nothing, whether or not the key is required. */
  lemma KeyPasses(errors: seq<Message>, key: string, base: Type, required: bool, obj: Value)
    requires base.Base? && obj.Obj?
    requires Existy(Field(obj, key)) && Accepts(base, Field(obj, key)) == Done(true)
    ensures KeyStep(errors, key, if required then IsRequired(base) else base, obj, false) == Done(errors)
  {
    var val := Field(obj, key);
    assert Get(obj, key) == Done(val);
    assert ValidateType(errors, key, base, val) == Done(errors);
    if required {
      assert ValidateType(errors, key, IsRequired(base), val) == Done(errors);
      assert ChainFrom(errors, key, IsRequired(base), val) == Done(errors);
    }
  }

  /** A required key whose value is missing adds exactly its one message. */
  lemma RequiredKeyMissing(errors: seq<Message>, key: string, base: Type, obj: Value)
    requires base.Base? && obj.Obj? && Field(obj, key) == Undefined
    ensures KeyStep(errors, key, IsRequired(base), obj, false) == Done(errors + [Message(key, MustNotBeAbsent)])
  {
    var m := errors + [Message(key, MustNotBeAbsent)];
    assert Get(obj, key) == Done(Undefined);
    assert ValidateType(errors, key, IsRequired(base), Undefined) == Done(m);
    assert ValidateType(m, key, base, Undefined) == Done(m);
    assert ChainFrom(m, key, IsRequired(base), Undefined) == Done(m);
  }

  /** Collecting a three-key schema is its three reducer steps in order. */
  lemma CollectThree(schema: Schema, obj: Value, e1: seq<Message>, e2: seq<Message>, e3: seq<Message>)
    requires |schema| == 3
    requires KeyStep([], schema[0].0, schema[0].1, obj, false) == Done(e1)
    requires KeyStep(e1, schema[1].0, schema[1].1, obj, false) == Done(e2)
    requires KeyStep(e2, schema[2].0, schema[2].1, obj, false) == Done(e3)
    ensures Collect(schema, obj, false) == Done(e3)
  {
    assert Collect(schema[..1], obj, false) == Done(e1) by {
      assert schema[..1][..0] == [];
    }
    assert Collect(schema[..2], obj, false) == Done(e2) by {
      assert schema[..2][..1] == schema[..1];
    }
    assert schema[..3][..2] == schema[..2];
  }

  /** `_validate` answers `null` when the fold leaves no message. */
  lemma ValidateNone(schema: Schema, obj: Value)
    requires Collect(schema, obj, false) == Done([])
    ensures Validate(schema, obj, false) == Done(None)
  {
  }

  /** An author with a name, an email and no book passes. */
  lemma AuthorValid(email: Type)
    requires email.Base? && Accepts(email, Str("bob@cobb.com")) == Done(true)
    ensures Validate(Author(email), Obj(0, [("name", Str("Bob Cobb")), ("email", Str("bob@cobb.com")), ("bookIds", Arr(1, []))]), false) == Done(None)
  {
    var good := Obj(0, [("name", Str("Bob Cobb")), ("email", Str("bob@cobb.com")), ("bookIds", Arr(1, []))]);
    LookupFirst(good.fields, "name", 0);
    LookupFirst(good.fields, "email", 1);
    LookupFirst(good.fields, "bookIds", 2);
    AuthorFieldsPass(email, good);
    ValidateNone(Author(email), good);
  }

  /** An object whose name is a string, whose email the email type accepts
      and whose book list is an empty array leaves no message. */
  lemma AuthorFieldsPass(email: Type, obj: Value)
    requires email.Base? && obj.Obj?
    requires Field(obj, "name").Str?
    requires Existy(Field(obj, "email")) && Accepts(email, Field(obj, "email")) == Done(true)
    requires Field(obj, "bookIds").Arr? && Field(obj, "bookIds").elems == []
    ensures Collect(Author(email), obj, false) == Done([])
  {
    var schema := Author(email);
    KeyPasses([], "name", T.StringType, true, obj);
    KeyPasses([], "email", email, true, obj);
    assert Accepts(schema[2].1, Field(obj, "bookIds")) == Done(true) by {
      assert schema[2].1 == Base(ArrayOf(T.StringType));
    }
    KeyPasses([], "bookIds", schema[2].1, false, obj);
    CollectThree(schema, obj, [], [], []);
  }

  /** An author without an email gets exactly the one `isRequired` message. */
  lemma AuthorMissingEmail(email: Type)
    requires email.Base?
    ensures Validate(Author(email), Obj(0, [("name", Str("Bob Cobb")), ("bookIds", Arr(1, []))]), false) == Done(Some([Message("email", MustNotBeAbsent)]))
  {
    var schema := Author(email);
    var bad := Obj(0, [("name", Str("Bob Cobb")), ("bookIds", Arr(1, []))]);
    var m := [Message("email", MustNotBeAbsent)];
    LookupFirst(bad.fields, "name", 0);
    assert Field(bad, "email") == Undefined;
    LookupFirst(bad.fields, "bookIds", 1);
    KeyPasses([], "name", T.StringType, true, bad);
    RequiredKeyMissing([], "email", email, bad);
    assert [] + m == m;
    assert Accepts(schema[2].1, Arr(1, [])) == Done(true) by {
      assert schema[2].1 == Base(ArrayOf(T.StringType));
    }
    KeyPasses(m, "bookIds", schema[2].1, false, bad);
    CollectThree(schema, bad, [], m, m);
  }
}
