/** The schema constructors of jsoSchema.js, the earlier revision, each
    with the set of values the schema it builds accepts. */
module EarlierSchemas {
  import opened Wrappers
  import opened JsValues
  import opened Protocol
  import opened EarlierEngine

  /** `s.And(a, b)`: `Every([a, b])`. */
  function And(a: Schema, b: Schema): (s: Schema)
    ensures forall v :: Accepts(s, v) <==> Accepts(a, v) && Accepts(b, v)
  {
    BothAccept(a, b);
    Every([a, b])
  }

  /** `s.Or(a, b)`: `Any([a, b])`. */
  function Or(a: Schema, b: Schema): (s: Schema)
    ensures forall v :: Accepts(s, v) <==> Accepts(a, v) || Accepts(b, v)
  {
    EitherAccepts(a, b);
    Any([a, b])
  }

  lemma BothAccept(a: Schema, b: Schema)
    ensures forall v :: Accepts(Every([a, b]), v) <==> Accepts(a, v) && Accepts(b, v)
  {
    forall v
      ensures Accepts(Every([a, b]), v) <==> Accepts(a, v) && Accepts(b, v)
    {
      assert [a, b][0] == a && [a, b][1] == b;
    }
  }

  lemma EitherAccepts(a: Schema, b: Schema)
    ensures forall v :: Accepts(Any([a, b]), v) <==> Accepts(a, v) || Accepts(b, v)
  {
    forall v
      ensures Accepts(Any([a, b]), v) <==> Accepts(a, v) || Accepts(b, v)
    {
      assert [a, b][0] == a && [a, b][1] == b;
    }
  }

  /** `s.If(condition, then, els)` is `Or(And(condition, then), els)`. */
  function If(condition: Schema, thenSchema: Schema, els: Schema): (s: Schema)
    ensures forall v :: Accepts(s, v) <==> (Accepts(condition, v) && Accepts(thenSchema, v)) || Accepts(els, v)
  {
    Or(And(condition, thenSchema), els)
  }

  /** When the condition holds and `then` rejects, `If` runs `els` on the
      same value after the calls of the condition and of `then`. */
  lemma IfTriesElseAfterThenFails<R>(condition: Schema, thenSchema: Schema, els: Schema, v: Value, log: Log,
                                     p: Log -> R, f: Log -> R)
    requires Accepts(condition, v) && !Accepts(thenSchema, v)
    ensures Run(If(condition, thenSchema, els), v, log, p, f) ==
            Run(els, v, log + Trace(condition, v) + Trace(thenSchema, v), p, f)
  {
    var both := Every([condition, thenSchema]);
    BothTrace(condition, thenSchema, v);
    AnyStep([both, els], v, log, p, f);
    assert [both, els][1..] == [els];
    AnyStep([els], v, log + Trace(both, v), p, f);
    assert [els][1..] == [];
    RunMatchesAccepts(els, v, log + Trace(both, v), p, f);
    Regroup(log, Trace(condition, v), Trace(thenSchema, v));
  }

  /** `Every([condition, then])` rejects after calling both when the
      condition accepts and `then` rejects. */
  lemma BothTrace(condition: Schema, thenSchema: Schema, v: Value)
    requires Accepts(condition, v) && !Accepts(thenSchema, v)
    ensures !Accepts(Every([condition, thenSchema]), v)
    ensures Trace(Every([condition, thenSchema]), v) == Trace(condition, v) + Trace(thenSchema, v)
  {
    assert [condition, thenSchema][1..] == [thenSchema];
    assert Trace(Every([thenSchema]), v) == Trace(thenSchema, v) + [];
  }

  /** The predicate of `OfType(typeName)`. */
  function IsOfType(typeName: string): Value -> bool {
    (x: Value) => TypeOf(x) == typeName
  }

  function OfType(typeName: string): (s: Schema)
    ensures forall v :: Accepts(s, v) <==> TypeOf(v) == typeName
  {
    Condition(IsOfType(typeName))
  }

  function Number(): (s: Schema)
    ensures forall v :: Accepts(s, v) <==> v.Num?
  {
    OfType("number")
  }

  function String(): (s: Schema)
    ensures forall v :: Accepts(s, v) <==> v.Str?
  {
    OfType("string")
  }

  function Boolean(): (s: Schema)
    ensures forall v :: Accepts(s, v) <==> v.Bool?
  {
    OfType("boolean")
  }

  function GreaterThan(lowerBound: real): (s: Schema)
    ensures forall v :: Accepts(s, v) <==> v.Num? && lowerBound < v.n
  {
    And(Number(), Condition((x: Value) => x.Num? && lowerBound < x.n))
  }

  function GreaterThanEqual(lowerBound: real): (s: Schema)
    ensures forall v :: Accepts(s, v) <==> v.Num? && lowerBound <= v.n
  {
    And(Number(), Condition((x: Value) => x.Num? && lowerBound <= x.n))
  }

  function LessThan(upperBound: real): (s: Schema)
    ensures forall v :: Accepts(s, v) <==> v.Num? && v.n < upperBound
  {
    And(Number(), Condition((x: Value) => x.Num? && x.n < upperBound))
  }

  function LessThanEqual(upperBound: real): (s: Schema)
    ensures forall v :: Accepts(s, v) <==> v.Num? && v.n <= upperBound
  {
    And(Number(), Condition((x: Value) => x.Num? && x.n <= upperBound))
  }

  /** `s.RegExp(re)`: a string the regular expression matches; the matcher
      is a parameter. */
  function RegExp(matches: string -> bool): (s: Schema)
    ensures forall v :: Accepts(s, v) <==> v.Str? && matches(v.s)
  {
    And(String(), Condition((x: Value) => x.Str? && matches(x.s)))
  }

  /** `s.Enum(values)`: a table keyed by the string form of each listed
      value; a value is accepted when its string form is a key. */
  method Enum(values: seq<Value>) returns (s: Schema)
    ensures s.Condition?
    ensures forall v :: Accepts(s, v) <==>
              exists i | 0 <= i < |values| :: PropertyKey(values[i]) == PropertyKey(v)
  {
    var table: map<string, bool> := map[];
    var i := 0;
    while i < |values|
      invariant i <= |values|
      invariant forall k :: k in table <==> exists j | 0 <= j < i :: PropertyKey(values[j]) == k
    {
      table := table[PropertyKey(values[i]) := true];
      i := i + 1;
    }
    s := Condition((x: Value) => PropertyKey(x) in table);
  }

  /** Loose equality `==` between a value and a constant, where null and
      undefined are equal to each other and to nothing else. */
  predicate LooseEquals(a: Value, b: Value) {
    if a.Null? || a.Undefined? then b.Null? || b.Undefined?
    else a == b
  }

  /** `s.Constant(value)`: loose equality with `value`. */
  function Constant(c: Value): (s: Schema)
    ensures forall v :: Accepts(s, v) <==> LooseEquals(v, c)
  {
    Condition((x: Value) => LooseEquals(x, c))
  }

  /** `s.Nullable(validator)`: `Or(Constant(null), validator)`; because the
      comparison is loose, undefined passes as well as null. */
  function Nullable(schema: Schema): (s: Schema)
    ensures forall v :: Accepts(s, v) <==> v.Null? || v.Undefined? || Accepts(schema, v)
  {
    Or(Constant(Null), schema)
  }

  /** `s.Object(spec)` over the corrected object loop: the required
      properties must be defined and accepted, the optional properties are
      run on whatever reading them gives (undefined when absent, as the
      code's optional step does), and with `allow_other_properties` false no undeclared own key
      is allowed. The behaviour as called is `ObjectAsCalled`. */
  function Object(spec: ObjectSpec): (s: Schema)
    ensures forall v :: Accepts(s, v) <==>
              && (forall i | 0 <= i < |spec.required| ::
                    !Missing(v, spec.required[i].0) && Accepts(spec.required[i].1, Get(v, spec.required[i].0)))
              && (forall i | 0 <= i < |spec.optional| :: Accepts(spec.optional[i].1, Get(v, spec.optional[i].0)))
              && (spec.allowOther == Some(false) ==> OwnKeys(v) <= DeclaredNames(spec))
  {
    ObjectCheck(spec)
  }

  /** An absent optional property is not skipped: its schema decides, run
      on undefined. */
  lemma OptionalRunsOnUndefined(name: string, schema: Schema, v: Value)
    requires !HasOwn(v, name)
    ensures Accepts(Object(ObjectSpec([], [(name, schema)], None)), v) <==> Accepts(schema, Undefined)
  {
    assert [(name, schema)][0] == (name, schema);
    if v.Arr? {
      assert IndexOfKey(name, |v.items|, 0).None?;
    } else if v.Str? {
      assert IndexOfKey(name, |v.s|, 0).None?;
    }
  }

  /** `Object({optional_properties: {_id: Constant(true)}})` rejects `{}`:
      the absent `_id` reads undefined, and undefined is not loosely equal
      to true. */
  lemma AbsentOptionalCanReject()
    ensures !Accepts(Object(ObjectSpec([], [("_id", Constant(Bool(true)))], None)), Obj(map[]))
  {
    OptionalRunsOnUndefined("_id", Constant(Bool(true)), Obj(map[]));
  }

  /** `s.Record(required_properties)` over the corrected object loop: no `allow_other_properties` is given, so a record of this
      revision is open. As called it accepts every value (`ObjectAsCalled`). */
  function Record(required: seq<(string, Schema)>): (s: Schema)
    ensures forall v :: Accepts(s, v) <==>
              forall i | 0 <= i < |required| ::
                !Missing(v, required[i].0) && Accepts(required[i].1, Get(v, required[i].0))
  {
    Object(ObjectSpec(required, [], None))
  }

  /** `s.HashTable()`: accepts every value. */
  function HashTable(): (s: Schema)
    ensures forall v :: Accepts(s, v)
  {
    Object(ObjectSpec([], [], Some(true)))
  }

  /** `s.Array(item_validator)` over its argument list: no argument throws. */
  function Array(args: seq<Schema>): (r: Result<Schema>)
    ensures r.Err? <==> |args| == 0
    ensures r.Ok? ==> forall v :: Accepts(r.value, v) <==>
              v.Arr? && forall i | 0 <= i < |v.items| :: Accepts(args[0], v.items[i])
  {
    if |args| == 0 then Err("Missing required argument item_validator")
    else Ok(ArrayCheck(args[0]))
  }

  /** `s.Array` runs no item schema on an empty array and rejects a
      non-array without running anything. */
  lemma ArrayCallsNothingWithoutItems<R>(item: Schema, v: Value, log: Log, p: Log -> R, f: Log -> R)
    requires !v.Arr? || |v.items| == 0
    ensures Run(ArrayCheck(item), v, log, p, f) == if v.Arr? then p(log) else f(log)
  {
  }

  /** The names of a property list, in order. */
  function Names(ps: seq<(string, Schema)>): (ns: seq<string>)
    ensures |ns| == |ps|
    ensures forall i | 0 <= i < |ps| :: ns[i] == ps[i].0
  {
    seq(|ps|, i requires 0 <= i < |ps| => ps[i].0)
  }

  /** `check_extra_properties` step by step: collect the value's own keys,
      delete each declared name, and pass when no key is left. */
  method CheckExtraProperties(spec: ObjectSpec, value: Value) returns (passed: bool)
    ensures passed <==> NoExtraKeys(spec, value)
  {
    var rest := UndeclaredKeys(value, Names(spec.required), Names(spec.optional));
    assert (set k | k in Names(spec.required)) + (set k | k in Names(spec.optional)) == DeclaredNames(spec);
    passed := |rest| == 0;
  }
}
