# jsoSchema in Dafny

jsoSchema validates JavaScript values against schemas built from
combinators. A schema is a function `(value, p, f)` that finishes by calling
the pass continuation `p` or the fail continuation `f`. `Every`/`And` and
`Any`/`Or` chain sub-schemas left to right and short-circuit. `Condition`
turns a predicate into a schema. The type, numeric, string, enumeration
and constant schemas are built from `Condition`. `Object`, `Record`,
`HashTable`, `Array`, `Tuple` and `Nullable` are structural.
`violatesSchema` runs a schema with two callbacks that set local flags, and
`validate` reduces its answer to a boolean.

Two revisions are modelled side by side:

- `src/jsoSchema.js`, the current one, in modules `CurrentEngine`,
  `CurrentSchemas` and `CurrentFacade`. `Every`, `Any`, the item loop of
  `Array` and the loop of `Tuple` are index loops. `Object` builds a list of
  per-property closures and hands it to `Every`.
- `jsoSchema.js`, the earlier one, in modules `EarlierEngine`,
  `EarlierSchemas`, `EarlierFacade` and `EarlierObjectAsWritten`.
  `Every` and `Any` recurse on `slice(1)`. `And` and `Or` take two
  arguments. `Array` has no length schema. `Object` runs a hand-written
  loop over the required and then the optional properties.

Shared modules:

- `Wrappers`: `Option` and `Result`.
- `JsValues`: the value universe (undefined, null, booleans, numbers as
  reals, strings, arrays, objects as maps of own properties), plus
  `typeof`, `typeOf`, truthiness, own keys, `hasOwnProperty`, property
  reads and the coercion of a value to a property key.
- `Protocol`: the log of predicate calls, and the scan for the first entry
  that ends a short-circuiting loop.

A schema is a `Schema` datatype with one constructor per closure shape the
code creates. `Run(s, v, log, p, f)` is what calling the closure does. The
continuations receive the log of every `Condition` predicate call made so
far. This makes "this schema is never run" and "the run stops here"
statements about the log. Each engine has three definitions:

- `Accepts(s, v)` says declaratively which values a schema accepts.
- `Trace(s, v)` says which predicate calls its run makes.
- `RunMatchesAccepts` proves
  `Run(s, v, log, p, f) == if Accepts(s, v) then p(log + Trace(s, v)) else f(log + Trace(s, v))`.

So the continuation-passing run calls exactly one continuation, exactly
once, with exactly the calls the declarative trace names. The
constructor-level properties are stated on `Accepts` and built on that
lemma.

Behaviour of the code worth knowing:

- `If(c, t, e)` is `Or(And(c, t), e)`, so `e` still runs when `c` accepts
  and `t` rejects (`IfTriesElseAfterThenFails`).
- `Record` takes one argument. It is closed in `src/jsoSchema.js` and open
  in `jsoSchema.js`, which gives no `allow_other_properties`.
- A property declared both required and optional raises no
  construction-time error: both closures are pushed.
- `Tuple()` with no arguments throws nothing. It accepts exactly `[]`.
- `Nullable` in `jsoSchema.js` compares with `==`, so it also accepts
  undefined.

## Model

| member | source | states |
|---|---|---|
| CurrentFacade.Validate | src/jsoSchema.js:26-28 | true exactly when the schema accepts the value |
| CurrentFacade.ViolatesSchema | src/jsoSchema.js:39-47 | no error exactly when the schema accepts; otherwise the error object holds the offending value and the schema it was run against |
| CurrentEngine.RunMatchesAccepts | src/jsoSchema.js:120-124 | a Condition calls its predicate once and passes iff it returns true; every schema calls exactly the continuation `Accepts` picks, with the predicate calls `Trace` lists |
| CurrentEngine.PassAndFailDecide | src/jsoSchema.js:366-375 | Pass always calls p and Fail always calls f, without calling any predicate |
| CurrentEngine.RunPropertyMatches | src/jsoSchema.js:260-281 | a required-property closure fails on a missing own property, an optional one passes, both without calling anything; a present property is decided by its schema run on the property's value |
| CurrentEngine.RunEveryMatches | src/jsoSchema.js:65-78 | the index loop of Every from position i passes iff every remaining condition accepts, after running conditions up to and including the first rejecting one |
| CurrentEngine.RunAnyMatches | src/jsoSchema.js:96-109 | the index loop of Any from position i passes iff some remaining condition accepts, after running conditions up to and including the first accepting one |
| CurrentEngine.EverySequences | src/jsoSchema.js:65-78 | Every over a concatenation is Every over the first part continuing into Every over the rest |
| CurrentEngine.EveryStopsAtFirstRejection | src/jsoSchema.js:65-78 | once a prefix is rejected, no later condition runs and f is called |
| CurrentEngine.EveryStopsAt | src/jsoSchema.js:67-75 | when condition i is the first to reject, f is called after exactly conditions 0..i have run |
| CurrentEngine.AnySequences | src/jsoSchema.js:96-109 | Any over a concatenation is Any over the first part falling back to Any over the rest |
| CurrentEngine.AnyStopsAtFirstAcceptance | src/jsoSchema.js:96-109 | once a prefix accepts, no later alternative runs and p is called |
| CurrentEngine.AnyStopsAt | src/jsoSchema.js:98-106 | when alternative i is the first to accept, p is called after exactly alternatives 0..i have run |
| CurrentEngine.AnyBacktracks | src/jsoSchema.js:101-104 | a rejecting first alternative hands the same value on to the rest, with its calls kept in the log |
| CurrentEngine.RunArrayMatches | src/jsoSchema.js:314-339 | Array is the array type test, then the length schema on `value.length`, then the item loop, each stopping the run when it rejects |
| CurrentEngine.RunItemsMatches | src/jsoSchema.js:325-338 | the item loop passes iff every remaining element is accepted, running the item schema up to the first rejected element |
| CurrentEngine.ArrayEmptySkipsItems | src/jsoSchema.js:321-338 | on `[]` only the type test and the length schema on 0 run; the item schema never does |
| CurrentEngine.ArrayStopsAtFirstBadItem | src/jsoSchema.js:325-338 | when element i is the first rejected one, f is called and no later element is checked |
| CurrentEngine.RunTupleCheckMatches | src/jsoSchema.js:341-360 | Tuple is the array type test, then the arity test and the element loop |
| CurrentEngine.RunTupleMatches | src/jsoSchema.js:347-358 | the element loop passes iff each remaining element is accepted by its own schema, stopping at the first rejection |
| CurrentEngine.TupleArityMismatch | src/jsoSchema.js:345-346 | an array of the wrong length fails after the type test alone, with no element schema run |
| CurrentSchemas.And | src/jsoSchema.js:55-57 | accepts exactly what every argument accepts |
| CurrentSchemas.Or | src/jsoSchema.js:86-88 | accepts exactly what some argument accepts |
| CurrentSchemas.If | src/jsoSchema.js:111-113 | accepts iff (condition and then) or else |
| CurrentSchemas.IfTriesElseAfterThenFails | src/jsoSchema.js:111-113 | when the condition accepts and then rejects, else runs on the same value after both |
| CurrentSchemas.OfType | src/jsoSchema.js:153-155 | accepts exactly the values whose typeOf is the given name |
| CurrentSchemas.Number | src/jsoSchema.js:160-162 | accepts exactly numbers |
| CurrentSchemas.GreaterThan | src/jsoSchema.js:168-170 | accepts exactly numbers strictly above the bound |
| CurrentSchemas.GreaterThanEqual | src/jsoSchema.js:176-178 | accepts exactly numbers at or above the bound |
| CurrentSchemas.LessThan | src/jsoSchema.js:184-186 | accepts exactly numbers strictly below the bound |
| CurrentSchemas.LessThanEqual | src/jsoSchema.js:192-194 | accepts exactly numbers at or below the bound |
| CurrentSchemas.Integer | src/jsoSchema.js:199-201 | accepts exactly whole numbers |
| CurrentSchemas.String | src/jsoSchema.js:206-208 | accepts exactly strings |
| CurrentSchemas.Boolean | src/jsoSchema.js:213-215 | accepts exactly booleans |
| CurrentSchemas.Test | src/jsoSchema.js:221-226 | accepts exactly the strings the matcher matches |
| CurrentSchemas.OneOf | src/jsoSchema.js:232-239 | the table loop yields a condition accepting v iff v coerces to the same property key as some listed value |
| CurrentSchemas.Enum | src/jsoSchema.js:245-247 | as OneOf over the argument list |
| CurrentSchemas.Constant | src/jsoSchema.js:253-255 | accepts exactly the given value |
| CurrentSchemas.Nullable | src/jsoSchema.js:362-364 | accepts null and whatever the wrapped schema accepts |
| CurrentSchemas.RequiredChecksAccept | src/jsoSchema.js:261-270 | the required closures together accept iff every required property is own and accepted |
| CurrentSchemas.OptionalChecksAccept | src/jsoSchema.js:272-282 | the optional closures together accept iff every present optional property is accepted |
| CurrentSchemas.ObjectAccepts | src/jsoSchema.js:284-297 | the conditions Object builds accept iff required properties are present and valid, present optional ones are valid, and, when others are disallowed, every own key is declared |
| CurrentSchemas.Object | src/jsoSchema.js:257-298 | the loops build exactly those conditions, so the schema accepts exactly the object shape the spec describes |
| CurrentSchemas.Record | src/jsoSchema.js:300-303 | every given property present and accepted, and no other own key |
| CurrentSchemas.HashTable | src/jsoSchema.js:305-307 | accepts every value |
| CurrentSchemas.Array | src/jsoSchema.js:314-339 | no argument is an error; otherwise accepts arrays whose length the length schema (default Pass) accepts and whose every element the item schema accepts |
| CurrentSchemas.Tuple | src/jsoSchema.js:341-360 | accepts arrays of exactly n elements, element i accepted by schema i |
| CurrentSchemas.TupleArity | src/jsoSchema.js:341-360 | a two-number tuple rejects `[1]` and accepts `[1, 2]` |
| JsValues.TypeOf | src/jsoSchema.js:135-147 | null, arrays, plain objects and undefined get distinct tags; it differs from `typeof` only where `typeof` says "object"; the earlier revision's `typeOf` (jsoSchema.js:101-113) is the same function |
| JsValues.UndeclaredKeys | src/jsoSchema.js:286-294 | the keys left after deleting the declared names are exactly the undeclared own keys; none are left iff every own key is declared |
| JsValues.KeyList | src/jsoSchema.js:390-394 | lists every key of the table once; the earlier revision's `keys` (jsoSchema.js:270-274) is the same loop |
| JsValues.CopyKeys | src/jsoSchema.js:287-288 | the table built by entering each own key holds exactly the own keys |
| JsValues.DeleteNames | src/jsoSchema.js:290-291 | deleting each listed name leaves exactly the table's keys that are not listed |
| EarlierFacade.Validate | jsoSchema.js:389-391 | true exactly when the schema accepts the value |
| EarlierFacade.ViolatesSchema | jsoSchema.js:379-387 | no error exactly when the schema accepts; otherwise the error object holds the offending value and the schema it was run against |
| EarlierEngine.RunMatchesAccepts | jsoSchema.js:86-90 | a Condition calls its predicate once and passes iff it returns true; every schema calls exactly the continuation `Accepts` picks, with the calls `Trace` lists |
| EarlierEngine.PassAndFailDecide | jsoSchema.js:376-377 | Pass always calls p and Fail always calls f, without calling any predicate |
| EarlierEngine.EveryMatches | jsoSchema.js:22-34 | the slice recursion of Every passes iff every condition accepts, running them up to the first rejecting one |
| EarlierEngine.EveryStep | jsoSchema.js:26-32 | Every runs the first condition and, on acceptance, Every of the rest after it |
| EarlierEngine.EveryStopsAt | jsoSchema.js:22-34 | when condition i is the first to reject, f is called after exactly conditions 0..i have run |
| EarlierEngine.AnyMatches | jsoSchema.js:47-63 | the slice recursion of Any passes iff some alternative accepts, running them up to the first accepting one; an empty Any fails |
| EarlierEngine.AnyStep | jsoSchema.js:53-61 | Any runs the first alternative and, on rejection, Any of the rest on the same value |
| EarlierEngine.AnyStopsAt | jsoSchema.js:47-63 | when alternative i is the first to accept, p is called after exactly alternatives 0..i have run |
| EarlierEngine.ObjectLoopMatches | jsoSchema.js:300-318 | the corrected loop (handed name lists, with the closed check deleting the declared names): passes iff every required property is defined and accepted, every optional property reading is accepted, undefined included as the optional step of the code gives it, and, when closed, no own key is undeclared |
| EarlierEngine.RequiredStepMatches | jsoSchema.js:219-241 | a required property that reads as undefined fails at once; otherwise its schema runs and the loop continues with the rest |
| EarlierEngine.OptionalStepMatches | jsoSchema.js:243-259 | an optional property's schema runs on whatever the read gives, undefined included, and the loop continues |
| EarlierEngine.RunItemsMatches | jsoSchema.js:351-369 | the item loop passes iff every remaining element is accepted, stopping at the first rejected one |
| EarlierSchemas.And | jsoSchema.js:36-38 | accepts exactly what both arguments accept |
| EarlierSchemas.Or | jsoSchema.js:73-75 | accepts exactly what either argument accepts |
| EarlierSchemas.If | jsoSchema.js:77-79 | accepts iff (condition and then) or else |
| EarlierSchemas.IfTriesElseAfterThenFails | jsoSchema.js:77-79 | when the condition accepts and then rejects, else runs on the same value after both |
| EarlierSchemas.OfType | jsoSchema.js:120-122 | accepts exactly the values whose typeOf is the given name |
| EarlierSchemas.Number | jsoSchema.js:128-130 | accepts exactly numbers |
| EarlierSchemas.GreaterThan | jsoSchema.js:137-139 | accepts exactly numbers strictly above the bound |
| EarlierSchemas.GreaterThanEqual | jsoSchema.js:146-148 | accepts exactly numbers at or above the bound |
| EarlierSchemas.LessThan | jsoSchema.js:155-157 | accepts exactly numbers strictly below the bound |
| EarlierSchemas.LessThanEqual | jsoSchema.js:164-166 | accepts exactly numbers at or below the bound |
| EarlierSchemas.String | jsoSchema.js:172-174 | accepts exactly strings |
| EarlierSchemas.Boolean | jsoSchema.js:180-182 | accepts exactly booleans |
| EarlierSchemas.RegExp | jsoSchema.js:189-194 | accepts exactly the strings the matcher matches |
| EarlierSchemas.Enum | jsoSchema.js:201-208 | the table loop yields a condition accepting v iff v coerces to the same property key as some listed value |
| EarlierSchemas.Constant | jsoSchema.js:215-217 | accepts the values loosely equal to the constant |
| EarlierSchemas.Nullable | jsoSchema.js:372-374 | accepts null, undefined and whatever the wrapped schema accepts |
| EarlierSchemas.Object | jsoSchema.js:320-330 | over the corrected loop: accepts iff required properties are defined and accepted, optional readings are accepted (an absent optional property's schema decides on undefined, as the code's optional step does) and, when closed, every own key is declared |
| EarlierSchemas.OptionalRunsOnUndefined | jsoSchema.js:243-259 | an absent optional property is not skipped: the object is accepted iff its schema accepts undefined |
| EarlierSchemas.AbsentOptionalCanReject | jsoSchema.js:243-259 | `Object({optional_properties: {_id: Constant(true)}})` rejects `{}`, because the optional step runs the schema on undefined |
| EarlierSchemas.Record | jsoSchema.js:332-335 | over the corrected loop: every given property defined and accepted; other keys are allowed |
| EarlierSchemas.HashTable | jsoSchema.js:337-341 | accepts every value |
| EarlierSchemas.Array | jsoSchema.js:347-370 | no argument is an error; otherwise accepts arrays whose every element the item schema accepts |
| EarlierSchemas.ArrayCallsNothingWithoutItems | jsoSchema.js:351-369 | a non-array fails and `[]` passes, with no predicate called |
| EarlierSchemas.CheckExtraProperties | jsoSchema.js:276-298 | collecting own keys and deleting the declared names passes iff no own key is undeclared |
| EarlierObjectAsWritten.ObjectAsCalledIgnoresProperties | jsoSchema.js:219-330 | the loop as written (`ObjectSchemaLoop`, which tests `.length > 0` and visits keys with `for ... in`) handed the spec's maps, as `s.Object` does, calls no predicate: it fails only a closed spec with an undeclared own key and otherwise passes |
| EarlierObjectAsWritten.RequiredPropertyNeverChecked | jsoSchema.js:303-307 | as called, `{}` passes a schema with a required string `name`; the intended loop rejects it |
| EarlierObjectAsWritten.ClosedObjectRejectsDeclaredKey | jsoSchema.js:276-318 | the loop as written (`ObjectSchemaLoop`) on name lists: a closed spec declaring `name` rejects `{name: "x"}`; the intended loop accepts it |

## Left out

- Numbers are reals: NaN, the infinities, -0 and floating-point rounding are not modelled. `value % 1 == 0` is read as "the number is whole".
- CurrentSchemas.OneOf: the string form of a number is written in plain decimal, a non-whole one with up to 20 fraction digits, and never in exponent form. `String(number)` is therefore only approximated for non-whole numbers, for magnitudes of 1e21 or more (`String(1e21)` is "1e+21") and for magnitudes below 1e-6.
- EarlierSchemas.Enum: the same approximation of `String(number)` as `CurrentSchemas.OneOf`.
- CurrentSchemas.Constant: `===` is modelled as equality of values, so two distinct arrays or objects with equal contents count as the same, where JavaScript compares identity.
- EarlierSchemas.Constant: `==` is modelled only for null and undefined (equal to each other and to nothing else); the other coercions of `==` (such as `1 == "1"`) are not. Two arrays or objects are compared by contents here, where JavaScript `==` compares their identity, so `Constant([1])` accepts a different array `[1]` in the model and rejects it in the code.
- Strings are sequences of Unicode scalar values, not of UTF-16 code units. A string holding a character outside the Basic Multilingual Plane has a smaller `length` here, so the index keys that `OwnKeys`, `HasOwn` and `Get` give for a string value differ from JavaScript's for such strings.
- EarlierEngine.ObjectLoopMatches: the corrected loop repairs only the two defects under Findings (the loop is handed name lists, and the closed check deletes the declared names). It keeps the optional step as `check_one_optional_property` (jsoSchema.js:243-259) writes it: the schema runs on `value[property]`, so an absent optional property's schema decides on undefined. `src/jsoSchema.js` (lines 272-281) and the library's own tests treat an absent optional property as no failure; this loop does not promise that, and `Object({optional_properties: {_id: Constant(true)}})` rejects `{}` here (`EarlierSchemas.AbsentOptionalCanReject`).
- EarlierSchemas.Object: the same optional-step behaviour as `EarlierEngine.ObjectLoopMatches`; `EarlierSchemas.OptionalRunsOnUndefined` states it.
- EarlierSchemas.Object / EarlierSchemas.Record: they are built on the corrected object loop (`EarlierEngine.ObjectLoopMatches`). As `jsoSchema.js` calls the loop, with the property maps, no property schema runs, so an open spec accepts every value; `EarlierObjectAsWritten.ObjectAsCalled` gives that behaviour (see Findings).
- The prototype chain and inherited properties are not modelled. Objects are maps of own properties, and a read of an absent property gives undefined.
- Property names that clash with built-ins (`__proto__`, or an enumeration value "hasOwnProperty" shadowing the method) are not modelled.
- Exceptions are not modelled, apart from `Array` with no arguments: `hasOwnProperty` or a property read on null or undefined throws in the code, and so does a non-function item schema.
- Failure messages, and the arguments passed to `f`, are not modelled. The error object keeps the value and the schema; its `message` field is not modelled.
- The order of `for ... in` is taken as the order of the property lists in `ObjectSpec`. The closed-object check does not depend on it.
- In `jsoSchema.js`, `allow_other_properties == false` is modelled for boolean values and absence only (`Option<bool>`). Values such as `0` or `""`, which also compare equal to false, are not.
- Regular expressions are a parameter `string -> bool`. The state a global regular expression keeps between calls is not modelled.
- EarlierSchemas.RegExp: models only a precompiled regular expression. In `jsoSchema.js` the name `RegExp` inside the function expression `function RegExp (re)` refers to that function itself, so `new RegExp(re)` on a string pattern calls it again with the same string and recurses until the stack overflows; that path is not modelled.
- CurrentSchemas.Test: compiling a string pattern is not modelled; the compiled matcher is the parameter.
- `Array(item, undefined)` given an explicit undefined length schema is the same as one argument. The argument list models only how many arguments there are.
- The module wrappers, `copyArray`, the exported name table, the test suite and the build files are not part of this model.

## Findings

| source | as written | input that shows it | evidently intended | confidence | as-written member | corrected member |
|---|---|---|---|---|---|---|
| jsoSchema.js:303-307 | `s.Object` passes the spec's property maps, but `object_schema_loop` tests `.length > 0` on them. A plain object has no length, so no property schema is ever run. | spec `{required_properties: {name: String()}}`, value `{}` | `{}` is rejected because `name` is missing | not executed | EarlierObjectAsWritten.RequiredPropertyNeverChecked | EarlierEngine.ObjectLoopMatches |
| jsoSchema.js:284-291 | Read as name lists, the loop reaches `check_extra_properties` only after slicing both lists empty. It then deletes nothing, so a closed object rejects even its declared keys. | a closed spec declaring only the required property `name`, its names handed to the loop as a list, and the value `{name: "x"}` | `{name: "x"}` is accepted | not executed | EarlierObjectAsWritten.ClosedObjectRejectsDeclaredKey | EarlierSchemas.Object |
