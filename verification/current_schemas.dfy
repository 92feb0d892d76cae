/** The schema constructors of src/jsoSchema.js, each with the set of
    values the schema it builds accepts. */
module CurrentSchemas {
  import opened Wrappers
  import opened JsValues
  import opened Protocol
  import opened CurrentEngine

  /** `And(a, b, ...)`: `Every` over the argument list. */
  function And(conditions: seq<Schema>): (s: Schema)
    ensures forall v :: Accepts(s, v) <==> forall i | 0 <= i < |conditions| :: Accepts(conditions[i], v)
  {
    Every(conditions)
  }

  /** `Or(a, b, ...)`: `Any` over the argument list. */
  function Or(conditions: seq<Schema>): (s: Schema)
    ensures forall v :: Accepts(s, v) <==> exists i | 0 <= i < |conditions| :: Accepts(conditions[i], v)
  {
    Any(conditions)
  }

  /** A two-schema conjunction accepts what both accept. */
  lemma AcceptsBoth(a: Schema, b: Schema)
    ensures forall v :: Accepts(Every([a, b]), v) <==> Accepts(a, v) && Accepts(b, v)
  {
    forall v
      ensures Accepts(Every([a, b]), v) <==> Accepts(a, v) && Accepts(b, v)
    {
      assert [a, b][0] == a && [a, b][1] == b;
    }
  }

  /** A two-schema disjunction accepts what either accepts. */
  lemma AcceptsEither(a: Schema, b: Schema)
    ensures forall v :: Accepts(Any([a, b]), v) <==> Accepts(a, v) || Accepts(b, v)
  {
    forall v
      ensures Accepts(Any([a, b]), v) <==> Accepts(a, v) || Accepts(b, v)
    {
      assert [a, b][0] == a && [a, b][1] == b;
    }
  }

  /** `If(condition, thenSchema, els)` is `Or(And(condition, then), els)`: the
      else branch is also taken when the condition holds but `then` fails. */
  function If(condition: Schema, thenSchema: Schema, els: Schema): (s: Schema)
    ensures forall v :: Accepts(s, v) <==> (Accepts(condition, v) && Accepts(thenSchema, v)) || Accepts(els, v)
  {
    AcceptsBoth(condition, thenSchema);
    AcceptsEither(And([condition, thenSchema]), els);
    Or([And([condition, thenSchema]), els])
  }

  /** When the condition holds and `then` rejects, `If` runs `els` on the
      same value after the calls of the condition and of `then`. */
  lemma IfTriesElseAfterThenFails<R>(condition: Schema, thenSchema: Schema, els: Schema, v: Value, log: Log,
                                     p: Log -> R, f: Log -> R)
    requires Accepts(condition, v) && !Accepts(thenSchema, v)
    ensures Run(If(condition, thenSchema, els), v, log, p, f) ==
            Run(els, v, log + Trace(condition, v) + Trace(thenSchema, v), p, f)
  {
    var both := Every([condition, thenSchema]);
    BothTrace(condition, thenSchema, v);
    AnyBacktracks(both, [els], v, log, p, f);
    assert [both] + [els] == [both, els];
    var k := (l: Log) => RunAny([els], 1, v, l, p, f);
    RunMatchesAccepts(els, v, log + Trace(both, v), p, k);
    RunMatchesAccepts(els, v, log + Trace(both, v), p, f);
    Regroup(log, Trace(condition, v), Trace(thenSchema, v));
  }

  /** `Every([condition, then])` rejects after calling both when the
      condition accepts and `then` rejects. */
  lemma BothTrace(condition: Schema, thenSchema: Schema, v: Value)
    requires Accepts(condition, v) && !Accepts(thenSchema, v)
    ensures !Accepts(Every([condition, thenSchema]), v)
    ensures Trace(Every([condition, thenSchema]), v) == Trace(condition, v) + Trace(thenSchema, v)
  {
    var bs := Verdicts([condition, thenSchema], v);
    assert bs == [true, false];
    assert ScanEnd(bs, 0, true) == 2;
    assert TraceRange([condition, thenSchema], 1, 2, v) == Trace(thenSchema, v) + [];
  }

  /** `OfType(typeName)`: the value's `typeOf` tag is `typeName`. */
  function OfType(typeName: string): (s: Schema)
    ensures forall v :: Accepts(s, v) <==> TypeOf(v) == typeName
  {
    Condition(IsOfType(typeName))
  }

  function Number(): (s: Schema)
    ensures forall v :: Accepts(s, v) <==> v.Num?
  {
    OfType("number")
  }

  function String(): (s: Schema)
    ensures forall v :: Accepts(s, v) <==> v.Str?
  {
    OfType("string")
  }

  function Boolean(): (s: Schema)
    ensures forall v :: Accepts(s, v) <==> v.Bool?
  {
    OfType("boolean")
  }

  /** `Integer()`: a number with `value % 1 == 0`. */
  function Integer(): (s: Schema)
    ensures forall v :: Accepts(s, v) <==> v.Num? && IsWhole(v.n)
  {
    AcceptsBoth(Number(), Condition((x: Value) => x.Num? && IsWhole(x.n)));
    And([Number(), Condition((x: Value) => x.Num? && IsWhole(x.n))])
  }

  function GreaterThan(lowerBound: real): (s: Schema)
    ensures forall v :: Accepts(s, v) <==> v.Num? && lowerBound < v.n
  {
    AcceptsBoth(Number(), Condition((x: Value) => x.Num? && lowerBound < x.n));
    And([Number(), Condition((x: Value) => x.Num? && lowerBound < x.n)])
  }

  function GreaterThanEqual(lowerBound: real): (s: Schema)
    ensures forall v :: Accepts(s, v) <==> v.Num? && lowerBound <= v.n
  {
    AcceptsBoth(Number(), Condition((x: Value) => x.Num? && lowerBound <= x.n));
    And([Number(), Condition((x: Value) => x.Num? && lowerBound <= x.n)])
  }

  function LessThan(upperBound: real): (s: Schema)
    ensures forall v :: Accepts(s, v) <==> v.Num? && v.n < upperBound
  {
    AcceptsBoth(Number(), Condition((x: Value) => x.Num? && x.n < upperBound));
    And([Number(), Condition((x: Value) => x.Num? && x.n < upperBound)])
  }

  function LessThanEqual(upperBound: real): (s: Schema)
    ensures forall v :: Accepts(s, v) <==> v.Num? && v.n <= upperBound
  {
    AcceptsBoth(Number(), Condition((x: Value) => x.Num? && x.n <= upperBound));
    And([Number(), Condition((x: Value) => x.Num? && x.n <= upperBound)])
  }

  /** `Test(re)`: a string the regular expression matches; the matcher is a
      parameter, since the host's regular-expression engine is not part of
      this model. */
  function Test(matches: string -> bool): (s: Schema)
    ensures forall v :: Accepts(s, v) <==> v.Str? && matches(v.s)
  {
    AcceptsBoth(String(), Condition((x: Value) => x.Str? && matches(x.s)));
    And([String(), Condition((x: Value) => x.Str? && matches(x.s))])
  }

  /** `OneOf(values)`: fill a table keyed by the string form of each listed
      value, then accept a value whose string form is a key of the table.
      Values are compared after coercion to property keys, so `1` and `"1"`
      are interchangeable, and an empty list accepts nothing. */
  method OneOf(values: seq<Value>) returns (s: Schema)
    ensures s.Condition?
    ensures forall v :: Accepts(s, v) <==>
              exists i | 0 <= i < |values| :: PropertyKey(values[i]) == PropertyKey(v)
  {
    var table: map<string, bool> := map[];
    for i := 0 to |values|
      invariant forall k :: k in table <==> exists j | 0 <= j < i :: PropertyKey(values[j]) == k
    {
      table := table[PropertyKey(values[i]) := true];
    }
    s := Condition((x: Value) => PropertyKey(x) in table);
  }

  /** `Enum(v1, v2, ...)`: `OneOf` over the argument list. */
  method Enum(values: seq<Value>) returns (s: Schema)
    ensures forall v :: Accepts(s, v) <==>
              exists i | 0 <= i < |values| :: PropertyKey(values[i]) == PropertyKey(v)
  {
    s := OneOf(values);
  }

  /** `Constant(value)`: strict equality with `value`. */
  function Constant(c: Value): (s: Schema)
    ensures forall v :: Accepts(s, v) <==> v == c
  {
    Condition((x: Value) => x == c)
  }

  /** `Nullable(schema)`: null, or what `schema` accepts. */
  function Nullable(schema: Schema): (s: Schema)
    ensures forall v :: Accepts(s, v) <==> v == Null || Accepts(schema, v)
  {
    AcceptsEither(Constant(Null), schema);
    Or([Constant(Null), schema])
  }

  /** The spec object `Object` takes: the required and optional properties
      in the order a `for ... in` loop lists them, and the raw
      `allow_other_properties` value (undefined when not given). */
  datatype ObjectSpec = ObjectSpec(required: seq<(string, Schema)>,
                                   optional: seq<(string, Schema)>,
                                   allowOther: Value)

  /** `allow_other_properties`, with undefined read as true. */
  predicate AllowsOther(allowOther: Value) {
    TypeOf(allowOther) == "undefined" || Truthy(allowOther)
  }

  function Names(ps: seq<(string, Schema)>): (ns: seq<string>)
    ensures |ns| == |ps|
    ensures forall i | 0 <= i < |ps| :: ns[i] == ps[i].0
  {
    seq(|ps|, i requires 0 <= i < |ps| => ps[i].0)
  }

  /** The property names a spec declares. */
  function DeclaredNames(spec: ObjectSpec): set<string> {
    (set k | k in Names(spec.required)) + (set k | k in Names(spec.optional))
  }

  /** The predicate of the closed-object condition: every own key of the
      value is declared. `UndeclaredKeys` computes it step by step. */
  function NoUndeclaredKeys(spec: ObjectSpec): Value -> bool {
    (x: Value) => OwnKeys(x) <= DeclaredNames(spec)
  }

  /** One per-property closure for each entry of `ps`. */
  function PropertyChecks(ps: seq<(string, Schema)>, required: bool): (cs: seq<Schema>)
    ensures |cs| == |ps|
    ensures forall i | 0 <= i < |ps| :: cs[i] == PropertyCheck(ps[i].0, ps[i].1, required)
  {
    seq(|ps|, i requires 0 <= i < |ps| => PropertyCheck(ps[i].0, ps[i].1, required))
  }

  /** The `conditions` array `Object` hands to `Every`. */
  function ObjectConditions(spec: ObjectSpec): seq<Schema> {
    PropertyChecks(spec.required, true) + PropertyChecks(spec.optional, false) + ExtraCheck(spec)
  }

  /** The values an object schema is meant to accept: every required
      property is present and accepted, every optional property that is
      present is accepted, and, when other properties are not allowed, no
      own key is undeclared. */
  predicate ObjectShape(spec: ObjectSpec, v: Value) {
    && (forall i | 0 <= i < |spec.required| ::
          HasOwn(v, spec.required[i].0) && Accepts(spec.required[i].1, Get(v, spec.required[i].0)))
    && (forall i | 0 <= i < |spec.optional| ::
          HasOwn(v, spec.optional[i].0) ==> Accepts(spec.optional[i].1, Get(v, spec.optional[i].0)))
    && (!AllowsOther(spec.allowOther) ==> OwnKeys(v) <= DeclaredNames(spec))
  }

  /** A conjunction over a concatenation accepts what both halves accept. */
  lemma AcceptsConcat(cs: seq<Schema>, ds: seq<Schema>, v: Value)
    ensures Accepts(Every(cs + ds), v) <==> Accepts(Every(cs), v) && Accepts(Every(ds), v)
  {
    if Accepts(Every(cs), v) && Accepts(Every(ds), v) {
      forall i | 0 <= i < |cs + ds|
        ensures Accepts((cs + ds)[i], v)
      {
        if i >= |cs| {
          assert (cs + ds)[i] == ds[i - |cs|];
        }
      }
    }
    if Accepts(Every(cs + ds), v) {
      forall i | 0 <= i < |cs|
        ensures Accepts(cs[i], v)
      {
        assert (cs + ds)[i] == cs[i];
      }
      forall i | 0 <= i < |ds|
        ensures Accepts(ds[i], v)
      {
        assert (cs + ds)[|cs| + i] == ds[i];
      }
    }
  }

  /** The required-property closures accept a value exactly when each
      required property is own and accepted. */
  lemma RequiredChecksAccept(ps: seq<(string, Schema)>, v: Value)
    ensures Accepts(Every(PropertyChecks(ps, true)), v) <==>
            forall i | 0 <= i < |ps| :: HasOwn(v, ps[i].0) && Accepts(ps[i].1, Get(v, ps[i].0))
  {
    var cs := PropertyChecks(ps, true);
    if Accepts(Every(cs), v) {
      forall i | 0 <= i < |ps|
        ensures HasOwn(v, ps[i].0) && Accepts(ps[i].1, Get(v, ps[i].0))
      {
        assert Accepts(cs[i], v);
      }
    }
  }

  /** The optional-property closures accept a value exactly when each
      optional property that is own is accepted. */
  lemma OptionalChecksAccept(ps: seq<(string, Schema)>, v: Value)
    ensures Accepts(Every(PropertyChecks(ps, false)), v) <==>
            forall i | 0 <= i < |ps| :: HasOwn(v, ps[i].0) ==> Accepts(ps[i].1, Get(v, ps[i].0))
  {
    var cs := PropertyChecks(ps, false);
    if Accepts(Every(cs), v) {
      forall i | 0 <= i < |ps|
        ensures HasOwn(v, ps[i].0) ==> Accepts(ps[i].1, Get(v, ps[i].0))
      {
        assert Accepts(cs[i], v);
      }
    }
  }

  /** The compiled conjunction accepts exactly the values of the intended
      shape. There is no check that the value is an object. */
  lemma ObjectAccepts(spec: ObjectSpec, v: Value)
    ensures Accepts(Every(ObjectConditions(spec)), v) <==> ObjectShape(spec, v)
  {
    var req := PropertyChecks(spec.required, true);
    var opt := PropertyChecks(spec.optional, false);
    var extra := ExtraCheck(spec);
    assert ObjectConditions(spec) == req + opt + extra;
    AcceptsConcat(req + opt, extra, v);
    AcceptsConcat(req, opt, v);
    RequiredChecksAccept(spec.required, v);
    OptionalChecksAccept(spec.optional, v);
    ExtraCheckAccepts(spec, v);
  }

  /** The closed-object condition, present only when other properties are
      not allowed. */
  function ExtraCheck(spec: ObjectSpec): seq<Schema> {
    if AllowsOther(spec.allowOther) then [] else [Condition(NoUndeclaredKeys(spec))]
  }

  /** The closed-object condition accepts exactly when other properties
      are allowed or every own key is declared. */
  lemma ExtraCheckAccepts(spec: ObjectSpec, v: Value)
    ensures Accepts(Every(ExtraCheck(spec)), v) <==>
            (!AllowsOther(spec.allowOther) ==> OwnKeys(v) <= DeclaredNames(spec))
  {
    if !AllowsOther(spec.allowOther) {
      assert ExtraCheck(spec)[0] == Condition(NoUndeclaredKeys(spec));
    }
  }

  /** `Object(spec)`: push a closure per required property, one per
      optional property and, when other properties are not allowed, the
      closed-object condition, then combine them with `Every`. */
  method Object(spec: ObjectSpec) returns (s: Schema)
    ensures s == Every(ObjectConditions(spec))
    ensures forall v :: Accepts(s, v) <==> ObjectShape(spec, v)
  {
    var conditions: seq<Schema> := [];
    for i := 0 to |spec.required|
      invariant conditions == PropertyChecks(spec.required[..i], true)
    {
      conditions := conditions + [PropertyCheck(spec.required[i].0, spec.required[i].1, true)];
    }
    assert spec.required[..|spec.required|] == spec.required;
    for i := 0 to |spec.optional|
      invariant conditions == PropertyChecks(spec.required, true) + PropertyChecks(spec.optional[..i], false)
    {
      conditions := conditions + [PropertyCheck(spec.optional[i].0, spec.optional[i].1, false)];
    }
    assert spec.optional[..|spec.optional|] == spec.optional;
    if !AllowsOther(spec.allowOther) {
      conditions := conditions + [Condition(NoUndeclaredKeys(spec))];
    }
    s := Every(conditions);
    forall v
      ensures Accepts(s, v) <==> ObjectShape(spec, v)
    {
      ObjectAccepts(spec, v);
    }
  }

  /** `Record(required_properties)`: the listed properties must be present
      and accepted, and no other own key is allowed. */
  method Record(required: seq<(string, Schema)>) returns (s: Schema)
    ensures forall v :: Accepts(s, v) <==>
              && (forall i | 0 <= i < |required| ::
                    HasOwn(v, required[i].0) && Accepts(required[i].1, Get(v, required[i].0)))
              && OwnKeys(v) <= set k | k in Names(required)
  {
    var spec := ObjectSpec(required, [], Bool(false));
    assert DeclaredNames(spec) == set k | k in Names(required);
    s := Object(spec);
  }

  /** `HashTable()`: no property is checked and others are allowed, so
      every value is accepted. */
  method HashTable() returns (s: Schema)
    ensures forall v :: Accepts(s, v)
  {
    s := Object(ObjectSpec([], [], Bool(true)));
  }

  /** `Array(item_schema, length_schema)` over its argument list: no
      argument throws; a missing length schema is `Pass()`. */
  function Array(args: seq<Schema>): (r: Result<Schema>)
    ensures r.Err? <==> |args| == 0
    ensures r.Ok? ==> forall v :: Accepts(r.value, v) <==>
              && v.Arr?
              && (|args| < 2 || Accepts(args[1], Num(|v.items| as real)))
              && forall i | 0 <= i < |v.items| :: Accepts(args[0], v.items[i])
  {
    if |args| == 0 then Err("Missing required argument item_schema")
    else Ok(ArrayCheck(args[0], if |args| < 2 then Pass else args[1]))
  }

  /** `Tuple(s1, ..., sn)`: an array of exactly n elements, element i
      accepted by `si`. */
  function Tuple(items: seq<Schema>): (s: Schema)
    ensures forall v :: Accepts(s, v) <==>
              v.Arr? && |v.items| == |items| && forall i | 0 <= i < |items| :: Accepts(items[i], v.items[i])
  {
    TupleCheck(items)
  }

  /** A tuple checks its arity: `[1]` does not match two number schemas,
      `[1, 2]` does. */
  lemma TupleArity()
    ensures !Accepts(Tuple([Number(), Number()]), Arr([Num(1.0)]))
    ensures Accepts(Tuple([Number(), Number()]), Arr([Num(1.0), Num(2.0)]))
  {
  }
}
