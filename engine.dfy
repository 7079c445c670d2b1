/** The entry points of build/index.js: `validate` (the `_validate` fold as
    the source runs it, with its `reduce` over the keys and its
    `while (type.next)` walk) and `enforce`. */
module Engine {
  import opened Outcomes
  import opened JsValues
  import opened Kisschema

  /** Once a key of the fold throws, the whole fold throws the same exception. */
  lemma {:induction false} ThrowPropagates(schema: Schema, i: nat, obj: Value, failFast: bool)
    requires i <= |schema| && Collect(schema[..i], obj, failFast).Threw?
    ensures Collect(schema, obj, failFast) == Collect(schema[..i], obj, failFast)
    decreases |schema| - i
  {
    if i < |schema| {
      CollectSnoc(schema[..i], schema[i].0, schema[i].1, obj, failFast);
      assert schema[..i] + [(schema[i].0, schema[i].1)] == schema[..i + 1];
      ThrowPropagates(schema, i + 1, obj, failFast);
    } else {
      assert schema[..i] == schema;
    }
  }

  /** `validate(schema, obj, { failFast })`: `None` for `null`, or the list
      of messages; JavaScript exceptions come out as `Threw`. */
  method RunValidate(schema: Schema, obj: Value, failFast: bool) returns (r: Outcome<Option<seq<Message>>>)
    ensures r == Validate(schema, obj, failFast)
  {
    var errors: seq<Message> := [];
    var i := 0;
    while i < |schema|
      invariant 0 <= i <= |schema|
      invariant Collect(schema[..i], obj, failFast) == Done(errors)
    {
      var (key, t) := schema[i];
      CollectSnoc(schema[..i], key, t, obj, failFast);
      assert schema[..i] + [(key, t)] == schema[..i + 1];
      if failFast && |errors| > 0 {
        // the reducer returns `errors` untouched
        i := i + 1;
        continue;
      }
      if obj.Null? || obj.Undefined? {
        // `obj[key]` throws
        ThrowPropagates(schema, i + 1, obj, failFast);
        return Threw(PropertyOfAbsent);
      }
      var val := Field(obj, key);
      var step := ValidateType(errors, key, t, val);
      if step.Threw? {
        ThrowPropagates(schema, i + 1, obj, failFast);
        return Threw(step.error);
      }
      var newErrors := step.value;
      if !(failFast && |newErrors| > 0) {
        var link := t;
        while link.IsRequired?
          invariant ChainFrom(newErrors, key, link, val) == ChainFrom(step.value, key, t, val)
          decreases TypeSize(link)
        {
          link := link.next;
          var next := ValidateType(newErrors, key, link, val);
          if next.Threw? {
            ThrowPropagates(schema, i + 1, obj, failFast);
            return Threw(next.error);
          }
          newErrors := next.value;
        }
      }
      errors := newErrors;
      i := i + 1;
    }
    assert schema[..i] == schema;
    r := Done(if |errors| > 0 then Some(errors) else None);
  }

  /** What `enforce` returns without throwing: the subject itself, or an
      `Error` built from the messages. */
  datatype Enforced = Subject(value: Value) | ErrorObject(messages: seq<Message>)

  /** `enforce(schema, obj, opts)`. */
  function Enforce(schema: Schema, obj: Value, failFast: bool): (r: Outcome<Enforced>)
    ensures r.Threw? <==> Validate(schema, obj, failFast).Threw?
    ensures r.Done? ==> (r.value == Subject(obj) <==> Validate(schema, obj, failFast) == Done(None))
    ensures r.Done? && r.value.ErrorObject? ==>
      |r.value.messages| > 0 && Validate(schema, obj, failFast) == Done(Some(r.value.messages))
  {
    var errors :- Validate(schema, obj, failFast);
    if errors.Some? then Done(ErrorObject(errors.value)) else Done(Subject(obj))
  }
}
