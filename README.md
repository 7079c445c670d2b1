# kisschema in Dafny

A model of kisschema, a small PropTypes-style runtime validator for
JavaScript values, and proofs about it. The model covers these parts:

- The type descriptors: `string`, `number`, `bool`, `object`, `array`,
  `func`, `any`, `oneOf`, `oneOfType`, `arrayOf`, `objectOf`, `instanceOf`,
  `shape` and `custom`.
- The `isRequired` link that `makeRequirable` hangs on every descriptor.
- The `asType` wrapping of raw schemas.
- The validation engine `_validate` (exported as `validate`), with and
  without `failFast`.
- The `enforce` wrapper.

Modules, one per file:

- `Outcomes` (`outcomes.dfy`): `Option`, `Result`, and `Outcome`. An
  `Outcome` is a value or the JavaScript exception the source would throw
  at that point.
- `JsValues` (`js_values.dfy`): the JavaScript values the validator
  inspects. It covers their `Object.prototype.toString` tag (`is`),
  `existy`, `===` (`indexOf`), property reads, `values`, and
  `doubleToSingleQuotes`.
- `Kisschema` (`kisschema.dfy`): the descriptor datatype and the messages.
  It holds one mutually recursive group for what a descriptor accepts and
  for the engine's fold over the schema keys: `validateType`, the
  `while (type.next)` walk, and the reduce step.
- `Types` (`types.dfy`): the factories of `types` and `asType`. `custom`
  checks its definition by running the engine on it, as the source does.
- `Engine` (`engine.dfy`): `_validate` as an imperative method, with the
  reduce as a loop over the keys and the `next` walk as an inner loop. The
  method is proved equal to the engine function. `enforce` is here too.
- `EngineLaws` (`engine_laws.dfy`): what `_validate` returns, and what
  `failFast` changes.
- `DescriptorLaws` (`descriptor_laws.dfy`): what each descriptor accepts.
- `Scenarios` (`scenarios.dfy`): the repository's test cases for
  `validate`, and its `Author` example, evaluated on the model.

Some JavaScript exceptions can be reached through ordinary inputs:

- `x.every` on a value that is not an array, in `arrayOf`.
- `Object.keys` of `null` or `undefined`, in `objectOf`.
- `obj[key]` on a `null` or `undefined` subject, in `_validate`. This also
  happens to a `null` element of an `arrayOf(shape(...))`.
- `obj.validate(x)` on a raw schema whose `validate` key is not a function.

They are modelled as `Threw` outcomes, not as preconditions. They arise
inside nested values, so a precondition would have to repeat the whole
recursion.

Behaviour of the code that a reader may not expect, which the model
keeps:

- `arrayOf` throws on a present non-array value instead of rejecting it.
  `objectOf` throws on `null` and `undefined`. It accepts numbers,
  booleans and functions, whose key list is empty. It checks the
  characters of a string.
- `values` flattens array-valued fields one level through `concat`.
  Because of that, `objectOf(array)` rejects `{a: [1]}` and
  `objectOf(number)` accepts `{a: [1, 2]}`.
- The result of `_validate` is a flat list of messages in key order, then
  in chain order. It is not a map keyed by property. No later message
  replaces an earlier one.
- The `isRequired` link checks presence only. A present value of the
  wrong type passes the link and is reported by the base descriptor.
- `any` alone never reports anything: an absent value is skipped before
  any rule is asked. Only `any.isRequired` makes a key mandatory.
- With `failFast`, the engine stops after the chain head fails. It does
  not stop after a later link fails. Chains have at most one link after
  the head, so the result is still the first message of a full run.
- `enforce` returns the error value. It does not throw it.
- `asType` takes a raw schema that has a `validate` key for a descriptor.
  Checking a value against it then throws.

## Model

| member | source | states |
|---|---|---|
| JsValues.ExistyIsPresence | build/index.js:21-23 | `existy(x)` holds exactly when x is neither `null` nor `undefined` |
| JsValues.IndexOf | build/index.js:150 | `indexOf` is -1 exactly when no element is `===` to x; otherwise it is the first index of an element `===` to x |
| JsValues.IsByKind | build/index.js:10-20 | `is(name, x)` holds exactly for the values whose runtime tag is `name`: each of the eight tags names one kind of value |
| JsValues.StrictEqualsLaws | build/index.js:150 | `===` is reflexive, symmetric and transitive; on primitives it is equality of values; it never relates values of different tags |
| JsValues.Lookup | build/index.js:300 | a missing property reads `undefined`; any other result is the value of a field with that key |
| JsValues.LookupFirst | build/index.js:300 | a present key reads the value of its first field with that key |
| JsValues.Values | build/index.js:24-28 | `values` throws exactly on `null` and `undefined` (`Object.keys`); a string gives its characters as one-character strings, in order; a number, boolean or function gives nothing |
| JsValues.Get | build/index.js:300 | `obj[key]` throws exactly when obj is `null` or `undefined`; otherwise it yields the property's value |
| JsValues.FieldValues | build/index.js:24-28 | the values of an object's own keys, in key order, one per key |
| JsValues.DoubleToSingleQuotes | build/index.js:30-32 | the length is kept, no `"` remains, every `"` becomes `'`, and every other character is kept |
| JsValues.NoDoubleQuotesUnchanged | build/index.js:30-32 | a string without `"` is returned unchanged |
| JsValues.DoubleToSingleQuotesIdempotent | build/index.js:30-32 | applying the replacement twice is the same as applying it once |
| Kisschema.Text | build/index.js:34-284 | a message text starts with the property name, except a custom message, which is exactly the text the user function returned |
| Kisschema.MakeErrorMessage | build/index.js:34-284 | the message is about the given property, and it is the `must not be null or undefined` message exactly for an `isRequired` link |
| Kisschema.ValidateType | build/index.js:287-291 | `validateType` keeps the list it is given as a prefix and adds at most one message, about the key being checked |
| Kisschema.KeyStep | build/index.js:299 | with `failFast`, a key reached with a non-empty list returns that list unchanged |
| Kisschema.Validate | build/index.js:293-310 | `_validate` throws exactly when the reduce throws; a list it returns is never empty (an empty one becomes `null`) |
| Types.Required | build/index.js:34-50 | `t.isRequired` is a requiring link whose `next` is t; it accepts exactly the present values |
| Types.AsType | build/index.js:53-69 | a descriptor is returned unchanged; a raw schema is checked with the rule of `shape`; a raw schema with a `validate` key throws on every check |
| Types.OneOf | build/index.js:145-161 | `oneOf(p)` is a requirable descriptor that accepts x exactly when an element of p is `===` to x |
| Types.OneOfType | build/index.js:162-184 | `oneOfType(ms)` is a requirable descriptor; it accepts only through a member whose `asType` accepts, and when no member throws it accepts exactly when some member's `asType` accepts |
| Types.ArrayOf | build/index.js:185-205 | `arrayOf(m)` is a requirable descriptor; on an array it accepts exactly when `asType(m)` accepts every element, and on anything else it throws |
| Types.ObjectOf | build/index.js:206-226 | `objectOf(m)` is a requirable descriptor; it accepts exactly when `values(x)` can be taken and `asType(m)` accepts each value, and it throws on `null` and `undefined` |
| Types.InstanceOf | build/index.js:227-243 | `instanceOf(C)` is a requirable descriptor that accepts exactly the values the `instanceof` test holds of |
| Types.Shape | build/index.js:244-262 | `shape(s)` is a requirable descriptor that accepts x exactly when `_validate(s, x)` is `null` |
| Types.LookupDefinition | build/index.js:266-270 | reading `validate`, `makeErrorMessage` and `toJSON` off the definition object gives the three slots |
| Types.SlotCheck | build/index.js:266-270 | the messages the interface schema adds for one slot of a definition |
| Types.CustomCheck | build/index.js:266-271 | validating a definition against `{validate: func.isRequired, makeErrorMessage: func.isRequired, toJSON: func}` yields `null` exactly when the definition conforms, and otherwise the list of slot messages |
| Types.CheckMessagesEmpty | build/index.js:266-271 | the slot messages are empty exactly when the definition conforms |
| Types.Custom | build/index.js:263-275 | `custom(d)` fails exactly when d does not conform, with a non-empty error list. Otherwise the type accepts exactly what `d.validate` accepts and its message is `d.makeErrorMessage`'s. A user `toJSON` replaces the default notice, which is kept when `toJSON` is missing |
| Engine.ThrowPropagates | build/index.js:296-307 | once the reduce over some prefix of the keys throws, the whole reduce throws the same way |
| Engine.RunValidate | build/index.js:293-310 | the imperative reduce with its inner `while (type.next)` loop computes the engine's result, including the throws |
| Engine.Enforce | build/index.js:313-317 | `enforce` throws exactly when `_validate` throws. It returns the very same subject exactly when `_validate` yields `null`, and otherwise an error carrying `_validate`'s non-empty list |
| EngineLaws.ValidateTypeAppends | build/index.js:287-291 | `validateType` appends exactly one message when the link fails on a value it checks, and otherwise returns the list unchanged |
| EngineLaws.ChainFromMessages | build/index.js:302-305 | the `next` walk appends the messages of its failing links, in chain order |
| EngineLaws.KeyStepMessages | build/index.js:296-306 | without `failFast`, one key appends the messages of its failing links, head first |
| EngineLaws.CollectMessages | build/index.js:296-307 | without `failFast`, the reduce yields the messages of all failing links, ordered by key and then by chain position |
| EngineLaws.LinkMessagesEmpty | build/index.js:287-291 | a chain yields no message exactly when none of its links fails |
| EngineLaws.ExpectedEmpty | build/index.js:296-309 | the expected list is empty exactly when no link of any key fails |
| EngineLaws.ValidateNullIff | build/index.js:293-310 | `_validate` is `null` exactly when no link of any key fails; otherwise its list is every failing link's message, in key order and then in chain order |
| EngineLaws.PresentChainAtMostOne | build/index.js:36-41 | on a present value the `isRequired` links pass, so a chain adds at most one message |
| EngineLaws.FailFastKeyAtMostOne | build/index.js:299-305 | with `failFast`, a key after a message changes nothing, and a key on an empty list adds at most one message |
| EngineLaws.FailFastAtMostOne | build/index.js:296-307 | with `failFast`, the result holds at most one message |
| EngineLaws.FailFastStops | build/index.js:299 | with `failFast`, once a message exists, no later key changes the result |
| EngineLaws.FailFastIsFirstMessage | build/index.js:296-307 | with `failFast`, the result is empty, or it is the first message of the full run |
| EngineLaws.FailFastAgreesOnNull | build/index.js:293-310 | `failFast` does not change whether `_validate` yields `null` |
| DescriptorLaws.Primitives | build/index.js:73-143 | a primitive accepts exactly the values of its runtime tag. No value is accepted by two primitives and nothing is coerced. The message is `<prop> should be of type: <name>` |
| DescriptorLaws.AnyAloneNeverReports | build/index.js:277-284 | `any` accepts exactly the present values, but on its own in a schema it adds no message |
| DescriptorLaws.AbsentSkipped | build/index.js:288 | a non-requiring link skips an absent value without a message |
| DescriptorLaws.RequiredKey | build/index.js:34-50 | a missing required key yields exactly `<key> must not be null or undefined`. A present value of the wrong type yields only the base message, and a right one yields none, with or without `failFast` |
| DescriptorLaws.RequiredLinkIgnoresType | build/index.js:39-41 | the `isRequired` link accepts a present value of the wrong type and rejects `null` |
| Kisschema.EveryAcceptsIff | build/index.js:192-194 | `every` accepts exactly when each element is accepted |
| Kisschema.SomeAcceptsIff | build/index.js:169-171 | `some` accepts only through a member that accepts; when no member throws, it accepts exactly when some member accepts |
| DescriptorLaws.OneOfIff | build/index.js:145-161 | `oneOf(p)` accepts x exactly when an element of p is `===` to x |
| DescriptorLaws.OneOfComparesIdentity | build/index.js:150 | two distinct objects with equal content are different choices; `'a'` is one of `['a','b','c']` and `'d'` is not |
| DescriptorLaws.OneOfTypeIff | build/index.js:162-184 | `oneOfType(ms)` accepts exactly when the `asType` of some member accepts (when no member throws); the empty list accepts nothing |
| DescriptorLaws.ArrayOfIff | build/index.js:185-205 | on an array, `arrayOf(m)` accepts exactly when `asType(m)` accepts every element, so `[]` always passes; on anything else it throws |
| DescriptorLaws.ObjectOfIff | build/index.js:206-226 | `objectOf(m)` accepts exactly when `values(x)` can be taken and every value is accepted, so `{}` always passes; on `null` or `undefined` it throws |
| DescriptorLaws.SpreadAllMembers | build/index.js:24-28 | a value is in `values(x)` exactly when it is a non-array field value or an element of an array-valued field |
| DescriptorLaws.SpreadAllNoArrays | build/index.js:24-28 | field values that are not arrays come out of `values` unchanged |
| DescriptorLaws.ObjectOfPlainObject | build/index.js:206-226 | on an object without array-valued fields, `objectOf(m)` accepts exactly when every field value is accepted |
| DescriptorLaws.ObjectOfSpreadsArrays | build/index.js:24-28 | because of `concat`, `objectOf(array)` rejects `{a: [1]}`: it checks the field's elements, not the array |
| DescriptorLaws.ObjectOfSpreadsArrayOfNumbers | build/index.js:24-28 | because of `concat`, `objectOf(number)` accepts `{a: [1, 2]}` |
| DescriptorLaws.ObjectOfNonObject | build/index.js:206-216 | `objectOf(m)` accepts a number and a boolean, whose key lists are empty |
| DescriptorLaws.ShapeIff | build/index.js:244-262 | `shape(s)` accepts x exactly when `_validate(s, x)` is `null`, that is, when no link of any key fails on x |
| DescriptorLaws.RawSchemaMember | build/index.js:53-69 | a raw schema inside `arrayOf` is checked like `shape`, unless it has a `validate` key, in which case checking any element throws |
| DescriptorLaws.ShapeOfAbsent | build/index.js:248-250 | `shape` of a non-empty schema throws on `null` or `undefined` |
| DescriptorLaws.ShapeOfAbsentPrefix | build/index.js:296-300 | on a `null` or `undefined` subject, every throw of the reduce is the property read |
| DescriptorLaws.DefaultChoices | build/index.js:145-243 | called without an argument, `oneOf` and `oneOfType` accept nothing, and `instanceOf`, whose default constructor is fresh, accepts nothing |
| DescriptorLaws.DefaultSchemas | build/index.js:185-262 | called without an argument, `arrayOf` accepts every array, `objectOf` every present value, and `shape` everything |
| DescriptorLaws.DefaultCustom | build/index.js:263-271 | `custom()` is refused with the two `isRequired` messages for `validate` and `makeErrorMessage` |
| DescriptorLaws.EveryAllPass | build/index.js:192-194 | every list of values passes `every` against the empty raw schema |
| DescriptorLaws.NestedShape | build/index.js:247-250 | `shape({a: shape({b: number.isRequired})})` rejects `{a: {}}` and accepts `{a: {b: 2}}` |
| Scenarios.AllPassed | test/types.js:339-343 | `{a: '1', b: 1}` against `{a: string, b: number}` gives `null` |
| Scenarios.EnforcePassesSubject | test/types.js:380-384 | `enforce` returns the very subject `{a: '1', b: 1}` it was given |
| Scenarios.EnforceRefuses | test/types.js:386-390 | `enforce` on `{a: '1', b: '1'}` against `{a: string, b: number}` returns an error carrying exactly the message for `b` |
| Scenarios.TwoFailures | test/types.js:345-352 | `{a: '1', b: 1, c: {}}` against `{a: array, b: string, c: object}` gives exactly the messages for `a` and `b` |
| Scenarios.RequiredRespected | test/types.js:354-360 | a missing `a: string.isRequired` gives exactly the `isRequired` message |
| Scenarios.FailFastStopsEarly | test/types.js:366-373 | `{b: '1'}` gives two messages, and only the first with `failFast` |
| Scenarios.EmailType | test/examples.js:7-10 | `custom` accepts the email definition; its type accepts `'bob@cobb.com'`, rejects `'bob'`, and reports the user's message for it |
| Scenarios.EmailMessageQuotes | test/examples.js:9 | the examples' message is `Error `, the key, then the value between single quotes |
| Scenarios.KeyPasses | build/index.js:297-306 | a present key accepted by its base descriptor adds nothing, required or not |
| Scenarios.RequiredKeyMissing | build/index.js:297-306 | a missing required key adds exactly its `isRequired` message |
| Scenarios.AuthorFieldsPass | test/examples.js:11-15 | an object with a string name, an email the email type accepts and an empty book list passes the `Author` schema |
| Scenarios.AuthorValid | test/examples.js:27-34 | a complete author passes the `Author` schema |
| Scenarios.AuthorMissingEmail | test/examples.js:36-42 | an author without an email gets exactly one message |

Helper lemmas that only unfold the engine's definitions (`Kisschema.CollectSnoc`, `Scenarios.CollectThree`, `Scenarios.ValidateNone`, `Kisschema.EveryAcceptsAll`, `Kisschema.SomeAcceptsAll`) are proof steps, not properties of the source, and have no row.

## Left out

- `toJSON` bodies, `JSON.stringify` and the message suffixes built from them (build/index.js:46, 61-64, 153-157, 177-180, 199-201, 220-222, 255-257, 315) are left out. They depend on JavaScript's serializer. Messages are a datatype: `Kisschema.Text` gives the full text of the fixed messages and only the prefix of those that end in JSON. A custom type keeps only which `toJSON` it carries.
- `instanceOf` is an opaque predicate on values carried by the descriptor. The prototype chain and `Constructor.toString()` are not modelled.
- The user functions of a `custom` definition are opaque Dafny functions. This includes the examples' email regex, which is approximated by "a character, an `@`, a character" on strings.
- Numbers are integers. NaN, Infinity, floats and boxed primitives are not modelled. Neither are other `toString` tags (Date, RegExp, Symbol).
- Property reads are modelled on objects only. On any other present value, every property reads `undefined`, so a string's `length` and indices and inherited properties are not seen. `Object.keys` keeps field order and does not reorder integer-like keys.
- A definition given to `custom` is always an object with the three slots, each missing, a non-function value or a function. A `null` definition and extra keys are not modelled.
- The user functions of a `custom` definition cannot throw: `validate` and `makeErrorMessage` are total Dafny functions, so an exception raised inside them (build/index.js:289-290) is not modelled.
- `makeRequirable` assigns `isRequired` onto the descriptor object in place. The model represents the result as a value that wraps the base descriptor. Each descriptor object is fresh where it is created, so no aliasing is lost. `t.isRequired.isRequired` does not exist in the source and is excluded by `Types.Required`'s precondition.
- Schemas map keys to descriptors. A raw nested object given directly as a schema value, without `shape`, is not modelled. `asType` sees such objects only inside `arrayOf`, `objectOf` and `oneOfType`.
- `instanceOf()` without an argument uses a fresh constructor; the model gives it the predicate that holds of nothing, since no value in a schema check can have been built by it.
- DescriptorLaws.ArrayOfIff: the claim that a non-array throws ignores duck typing. `x.every` (build/index.js:192) is looked up on the value, so an object with its own `every` function would have that function called. The model has no callable fields and throws `EveryIsNotAFunction` for every present non-array.
- Strings are sequences of code points, not of UTF-16 code units. `values` of a string with characters outside the Basic Multilingual Plane gives one element per code point here and two in JavaScript.
- The `Book` example (test/examples.js:17-20, 47-56) is not evaluated on the model. It nests `shape(Author)`, which `DescriptorLaws.ShapeIff` covers for every schema.
- Kisschema.ValidateType: a user `makeErrorMessage` is taken to return one message text. The source appends its result with `errors.concat(...)` (build/index.js:290), which spreads an array result into zero or several messages: a custom type whose `makeErrorMessage` returns `[]` adds nothing although its link fails, so `_validate` can then return `null`. The model's "at most one message" for `validateType` and `EngineLaws.ValidateNullIff` hold only for message functions that do not return arrays.
- Object fields are a list of key/value pairs, and nothing keeps the keys distinct, which every JavaScript object does. On a list with a repeated key, `values` gives one value per pair while a property read sees only the first pair. Every object built in the model's lemmas has distinct keys.
- Module and export boilerplate (build/index.js:3-7, 312-313) is not modelled.
- The keyed error map and the `{type, required}` JSON expected by test/types.js:37-44 and 349-351 come from a different build. They are not modelled.
