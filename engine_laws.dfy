/** What the validation engine promises, stated against a declarative
    description of its result: the messages of every failing link, key by
    key in schema order and link by link along each `next` chain. */
module EngineLaws {
  import opened Outcomes
  import opened JsValues
  import opened Kisschema

  /** The links of a key's chain: the head, then each `next`. */
  function Chain(t: Type): (links: seq<Type>)
    ensures |links| >= 1 && links[0] == t
  {
    match t
    case Base(_) => [t]
    case IsRequired(next) => [t] + Chain(next)
  }

  /** A link that reports: it applies to the value (present, or the link is
      an `isRequired` one) and rejects it. */
  predicate LinkFails(link: Type, val: Value)
  {
    (Existy(val) || IsRequiring(link)) && Accepts(link, val) == Done(false)
  }

  /** The messages of the failing links, in chain order. */
  function LinkMessages(prop: string, links: seq<Type>, val: Value): seq<Message>
  {
    if links == [] then []
    else
      (if LinkFails(links[0], val) then [MakeErrorMessage(links[0], prop, val)] else [])
      + LinkMessages(prop, links[1..], val)
  }

  /** The messages one key contributes. */
  function KeyMessages(key: string, t: Type, obj: Value): seq<Message>
  {
    LinkMessages(key, Chain(t), Field(obj, key))
  }

  /** The messages of every key, in schema order. */
  function ExpectedMessages(schema: Schema, obj: Value): seq<Message>
  {
    if schema == [] then []
    else ExpectedMessages(schema[..|schema| - 1], obj)
         + KeyMessages(schema[|schema| - 1].0, schema[|schema| - 1].1, obj)
  }

  /** No link of any key of the schema fails on the subject. */
  predicate NoLinkFails(schema: Schema, obj: Value)
  {
    forall i, j :: 0 <= i < |schema| && 0 <= j < |Chain(schema[i].1)| ==>
      !LinkFails(Chain(schema[i].1)[j], Field(obj, schema[i].0))
  }

  /** `validateType` appends exactly the link's message when the link fails,
      and otherwise returns the list it was given. */
  lemma ValidateTypeAppends(errors: seq<Message>, prop: string, t: Type, val: Value)
    requires ValidateType(errors, prop, t, val).Done?
    ensures ValidateType(errors, prop, t, val).value
         == errors + (if LinkFails(t, val) then [MakeErrorMessage(t, prop, val)] else [])
  {
    if !Existy(val) && !IsRequiring(t) {
      assert errors + [] == errors;
    }
  }

  /** The chain walk appends the messages of the failing links after t. */
  lemma {:induction false} ChainFromMessages(errors: seq<Message>, prop: string, t: Type, val: Value)
    requires ChainFrom(errors, prop, t, val).Done?
    ensures ChainFrom(errors, prop, t, val).value == errors + LinkMessages(prop, Chain(t)[1..], val)
    decreases t
  {
    match t
    case Base(_) =>
      assert errors + [] == errors;
    case IsRequired(next) =>
      var own := if LinkFails(next, val) then [MakeErrorMessage(next, prop, val)] else [];
      var e := errors + own;
      var rest := LinkMessages(prop, Chain(next)[1..], val);
      assert ValidateType(errors, prop, next, val) == Done(e) by {
        assert ValidateType(errors, prop, next, val).Done?;
        ValidateTypeAppends(errors, prop, next, val);
      }
      assert ChainFrom(errors, prop, t, val) == ChainFrom(e, prop, next, val);
      assert ChainFrom(e, prop, next, val).value == e + rest by {
        ChainFromMessages(e, prop, next, val);
      }
      assert LinkMessages(prop, Chain(t)[1..], val) == own + rest by {
        assert Chain(t)[1..] == Chain(next);
        assert Chain(next)[0] == next;
      }
      assert e + rest == errors + (own + rest);
  }

  /** Without `failFast`, one key appends the messages of its failing links. */
  lemma KeyStepMessages(errors: seq<Message>, key: string, t: Type, obj: Value)
    requires KeyStep(errors, key, t, obj, false).Done?
    ensures KeyStep(errors, key, t, obj, false).value == errors + KeyMessages(key, t, obj)
  {
    var val := Field(obj, key);
    assert ValidateType(errors, key, t, val).Done? && KeyStep(errors, key, t, obj, false) == ChainFrom(ValidateType(errors, key, t, val).value, key, t, val) by {
      assert Get(obj, key) == Done(val);
    }
    var e := ValidateType(errors, key, t, val).value;
    var own := if LinkFails(t, val) then [MakeErrorMessage(t, key, val)] else [];
    var rest := LinkMessages(key, Chain(t)[1..], val);
    assert e == errors + own by {
      ValidateTypeAppends(errors, key, t, val);
    }
    assert ChainFrom(e, key, t, val).value == e + rest by {
      ChainFromMessages(e, key, t, val);
    }
    assert KeyMessages(key, t, obj) == own + rest by {
      var c := Chain(t);
      assert c != [] && c[0] == t;
    }
    assert e + rest == errors + (own + rest);
  }

  /** Without `failFast`, the fold yields the messages of every failing link,
      ordered by schema key and then by chain position. */
  lemma {:induction false} CollectMessages(schema: Schema, obj: Value)
    requires Collect(schema, obj, false).Done?
    ensures Collect(schema, obj, false).value == ExpectedMessages(schema, obj)
  {
    if schema != [] {
      var prefix := schema[..|schema| - 1];
      CollectMessages(prefix, obj);
      KeyStepMessages(Collect(prefix, obj, false).value, schema[|schema| - 1].0, schema[|schema| - 1].1, obj);
    }
  }

  lemma {:induction false} LinkMessagesEmpty(prop: string, links: seq<Type>, val: Value)
    ensures LinkMessages(prop, links, val) == [] <==> forall j :: 0 <= j < |links| ==> !LinkFails(links[j], val)
  {
    if links != [] {
      LinkMessagesEmpty(prop, links[1..], val);
      assert forall j :: 0 < j < |links| ==> links[j] == links[1..][j - 1];
    }
  }

  /** No link fails on the last key of a schema. */
  predicate LastKeyPasses(schema: Schema, obj: Value)
    requires schema != []
  {
    var n := |schema| - 1;
    forall j :: 0 <= j < |Chain(schema[n].1)| ==> !LinkFails(Chain(schema[n].1)[j], Field(obj, schema[n].0))
  }

  lemma NoLinkFailsSplit(schema: Schema, obj: Value)
    requires schema != [] && NoLinkFails(schema, obj)
    ensures NoLinkFails(schema[..|schema| - 1], obj) && LastKeyPasses(schema, obj)
  {
    var n := |schema| - 1;
    var prefix := schema[..n];
    forall i, j | 0 <= i < n && 0 <= j < |Chain(prefix[i].1)|
      ensures !LinkFails(Chain(prefix[i].1)[j], Field(obj, prefix[i].0))
    {
      assert prefix[i] == schema[i];
    }
  }

  lemma NoLinkFailsJoin(schema: Schema, obj: Value)
    requires schema != [] && NoLinkFails(schema[..|schema| - 1], obj) && LastKeyPasses(schema, obj)
    ensures NoLinkFails(schema, obj)
  {
    var n := |schema| - 1;
    var prefix := schema[..n];
    forall i, j | 0 <= i < |schema| && 0 <= j < |Chain(schema[i].1)|
      ensures !LinkFails(Chain(schema[i].1)[j], Field(obj, schema[i].0))
    {
      if i < n {
        assert prefix[i] == schema[i];
        assert !LinkFails(Chain(prefix[i].1)[j], Field(obj, prefix[i].0));
      }
    }
  }

  lemma {:induction false} ExpectedEmpty(schema: Schema, obj: Value)
    ensures ExpectedMessages(schema, obj) == [] <==> NoLinkFails(schema, obj)
  {
    if schema != [] {
      var n := |schema| - 1;
      var prefix := schema[..n];
      var last := KeyMessages(schema[n].0, schema[n].1, obj);
      ExpectedEmpty(prefix, obj);
      LinkMessagesEmpty(schema[n].0, Chain(schema[n].1), Field(obj, schema[n].0));
      if NoLinkFails(schema, obj) {
        NoLinkFailsSplit(schema, obj);
      }
      if NoLinkFails(prefix, obj) && LastKeyPasses(schema, obj) {
        NoLinkFailsJoin(schema, obj);
      }
      assert ExpectedMessages(schema, obj) == ExpectedMessages(prefix, obj) + last;
      assert ExpectedMessages(schema, obj) == [] <==> ExpectedMessages(prefix, obj) == [] && last == [];
    }
  }

  /** `_validate` returns `null` exactly when no link of any key fails, and
      otherwise the non-empty list of the failing links' messages. */
  lemma ValidateNullIff(schema: Schema, obj: Value)
    requires Validate(schema, obj, false).Done?
    ensures Validate(schema, obj, false).value.None? <==> NoLinkFails(schema, obj)
    ensures Validate(schema, obj, false).value.Some? ==>
      Validate(schema, obj, false).value.value == ExpectedMessages(schema, obj)
  {
    CollectMessages(schema, obj);
    ExpectedEmpty(schema, obj);
  }

  // failFast

  /** After a present value passes the head of a chain, the rest of the chain
      adds at most one message: every later `isRequired` link passes. */
  lemma {:induction false} PresentChainAtMostOne(errors: seq<Message>, prop: string, t: Type, val: Value)
    requires Existy(val) && ChainFrom(errors, prop, t, val).Done?
    ensures |ChainFrom(errors, prop, t, val).value| <= |errors| + 1
  {
    match t
    case Base(_) =>
    case IsRequired(next) =>
      if next.IsRequired? {
        assert ValidateType(errors, prop, next, val) == Done(errors);
        PresentChainAtMostOne(errors, prop, next, val);
      }
  }

  /** With `failFast`, a key adds nothing once a message is there, and at
      most one message otherwise. */
  lemma FailFastKeyAtMostOne(errors: seq<Message>, key: string, t: Type, obj: Value)
    requires KeyStep(errors, key, t, obj, true).Done?
    ensures |errors| > 0 ==> KeyStep(errors, key, t, obj, true).value == errors
    ensures |errors| == 0 ==> |KeyStep(errors, key, t, obj, true).value| <= 1
  {
    if |errors| == 0 {
      var val := Field(obj, key);
      ValidateTypeAppends(errors, key, t, val);
      var h := ValidateType(errors, key, t, val).value;
      if |h| == 0 && t.IsRequired? {
        PresentChainAtMostOne(h, key, t, val);
      }
    }
  }

  /** With `failFast`, `_validate` reports at most one message. */
  lemma {:induction false} FailFastAtMostOne(schema: Schema, obj: Value)
    requires Collect(schema, obj, true).Done?
    ensures |Collect(schema, obj, true).value| <= 1
  {
    if schema != [] {
      var prefix := schema[..|schema| - 1];
      FailFastAtMostOne(prefix, obj);
      FailFastKeyAtMostOne(Collect(prefix, obj, true).value, schema[|schema| - 1].0, schema[|schema| - 1].1, obj);
    }
  }

  /** With `failFast`, once a key has produced a message no later key is
      evaluated: whatever keys follow, even ones that would throw, the result
      stays the same. */
  lemma {:induction false} FailFastStops(schema: Schema, later: Schema, obj: Value)
    requires Collect(schema, obj, true).Done? && |Collect(schema, obj, true).value| > 0
    ensures Collect(schema + later, obj, true) == Collect(schema, obj, true)
    decreases |later|
  {
    if later != [] {
      var n := |later| - 1;
      FailFastStops(schema, later[..n], obj);
      CollectSnoc(schema + later[..n], later[n].0, later[n].1, obj, true);
      assert schema + later[..n] + [(later[n].0, later[n].1)] == schema + later;
    } else {
      assert schema + later == schema;
    }
  }

  /** `failFast` reports exactly the first message a full run reports. */
  lemma {:induction false} FailFastIsFirstMessage(schema: Schema, obj: Value)
    requires Collect(schema, obj, false).Done?
    ensures Collect(schema, obj, true).Done?
    ensures var all := Collect(schema, obj, false).value;
      Collect(schema, obj, true).value == if |all| == 0 then [] else [all[0]]
  {
    if schema != [] {
      var prefix := schema[..|schema| - 1];
      var (key, t) := schema[|schema| - 1];
      FailFastIsFirstMessage(prefix, obj);
      var e := Collect(prefix, obj, false).value;
      var f := Collect(prefix, obj, true).value;
      assert Collect(schema, obj, false) == KeyStep(e, key, t, obj, false);
      assert Collect(schema, obj, true) == KeyStep(f, key, t, obj, true);
      if |f| > 0 {
        KeyStepMessages(e, key, t, obj);
      } else {
        var val := Field(obj, key);
        assert Get(obj, key) == Done(val);
        ValidateTypeAppends(f, key, t, val);
        var h := ValidateType(f, key, t, val).value;
        if |h| == 0 && t.IsRequired? {
          PresentChainAtMostOne(h, key, t, val);
        } else if |h| > 0 {
          assert e == [] && f == [];
          assert |h| == 1;
          assert Collect(schema, obj, true) == Done(h);
          ChainFromMessages(h, key, t, val);
          var all := Collect(schema, obj, false).value;
          assert all == h + LinkMessages(key, Chain(t)[1..], val);
          assert all[0] == h[0];
        } else {
          assert e == [] && f == [] && h == [];
          assert ValidateType(f, key, t, val) == Done(h);
          assert KeyStep(f, key, t, obj, true) == ChainFrom(h, key, t, val);
          assert ChainFrom(h, key, t, val) == Done(h);
          assert Collect(schema, obj, true) == Done([]);
          assert Collect(schema, obj, false) == Done([]);
        }
      }
    }
  }

  /** With and without `failFast`, `_validate` agrees on `null` whenever the
      full run returns. */
  lemma FailFastAgreesOnNull(schema: Schema, obj: Value)
    requires Validate(schema, obj, false).Done?
    ensures Validate(schema, obj, true).Done?
    ensures Validate(schema, obj, true).value.None? <==> Validate(schema, obj, false).value.None?
  {
    FailFastIsFirstMessage(schema, obj);
  }
}
