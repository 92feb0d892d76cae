/** The schema engine of jsoSchema.js, the earlier revision.

    `Every` and `Any` recurse on `conditions.slice(1)`, `Array` has no
    length schema and no `OfType` condition of its own, and `Object` runs a
    hand-written loop over the required and then the optional property
    names. `Run` uses that loop with the property names as lists, and with
    the closed-object check against every declared name; how the code as
    written departs from this is modelled in `EarlierObjectAsWritten`. */
module EarlierEngine {
  import opened Wrappers
  import opened JsValues
  import opened Protocol

  datatype Schema =
      /** `s.Condition(valueCheck)`: pass iff the predicate's result is
          truthy; a JavaScript predicate `P` is modelled as
          `x => Truthy(P(x))`. */
    | Condition(check: Value -> bool)
      /** `s.Every(conditions)`: the first condition, then `Every` of the rest. */
    | Every(conditions: seq<Schema>)
      /** `s.Any(conditions)`: the first condition, else `Any` of the rest. */
    | Any(conditions: seq<Schema>)
    | Pass
    | Fail
      /** `s.Object(spec)`. */
    | ObjectCheck(spec: ObjectSpec)
      /** `s.Array(item_validator)`. */
    | ArrayCheck(item: Schema)

  /** The spec `s.Object` takes: the required and optional properties in the
      order a `for ... in` loop lists them, and `allow_other_properties`
      (`None` when not given). */
  datatype ObjectSpec = ObjectSpec(required: seq<(string, Schema)>,
                                   optional: seq<(string, Schema)>,
                                   allowOther: Option<bool>)

  /** A size that every `slice(1)` step decreases. */
  function Size(s: Schema): nat
    decreases s
  {
    match s
    case Every(cs) => 1 + SizeAll(cs)
    case Any(cs) => 1 + SizeAll(cs)
    case ObjectCheck(spec) => 1 + SizeProps(spec.required) + SizeProps(spec.optional)
    case ArrayCheck(item) => 1 + Size(item)
    case _ => 1
  }

  function SizeAll(cs: seq<Schema>): nat
    decreases cs
  {
    if |cs| == 0 then 0 else 1 + Size(cs[0]) + SizeAll(cs[1..])
  }

  function SizeProps(ps: seq<(string, Schema)>): nat
    decreases ps
  {
    if |ps| == 0 then 0 else 1 + PropSize(ps[0]) + SizeProps(ps[1..])
  }

  function PropSize(p: (string, Schema)): nat
    decreases p
  {
    Size(p.1)
  }

  /** Each `slice(1)` step and each first element is smaller. */
  lemma SizeSlice(cs: seq<Schema>)
    requires |cs| > 0
    ensures Size(cs[0]) < Size(Every(cs)) && Size(Every(cs[1..])) < Size(Every(cs))
    ensures Size(cs[0]) < Size(Any(cs)) && Size(Any(cs[1..])) < Size(Any(cs))
  {
  }

  lemma SizePropsSlice(ps: seq<(string, Schema)>)
    requires |ps| > 0
    ensures Size(ps[0].1) < SizeProps(ps) && SizeProps(ps[1..]) < SizeProps(ps)
  {
    assert SizeProps(ps) == 1 + PropSize(ps[0]) + SizeProps(ps[1..]);
  }

  /** The names a spec declares, required and optional. */
  function DeclaredNames(spec: ObjectSpec): set<string> {
    (set i | 0 <= i < |spec.required| :: spec.required[i].0) +
    (set i | 0 <= i < |spec.optional| :: spec.optional[i].0)
  }

  /** `check_extra_properties`: pass when no own key of the value is
      undeclared. */
  predicate NoExtraKeys(spec: ObjectSpec, v: Value) {
    OwnKeys(v) <= DeclaredNames(spec)
  }

  /** A required property is missing when reading it gives undefined. */
  predicate Missing(v: Value, name: string) {
    TypeOf(Get(v, name)) == "undefined"
  }

  /** Calling schema `s` on `v` with continuations `p` and `f`. */
  function Run<R>(s: Schema, v: Value, log: Log, p: Log -> R, f: Log -> R): R
    decreases Size(s), 1, 0
  {
    match s
    case Condition(check) =>
      if check(v) then p(log + [Called(check, v)]) else f(log + [Called(check, v)])
    case Every(cs) =>
      if |cs| == 0 then p(log)
      else
        SizeSlice(cs);
        Run(cs[0], v, log, (l: Log) => Run(Every(cs[1..]), v, l, p, f), f)
    case Any(cs) =>
      if |cs| == 0 then f(log)
      else
        SizeSlice(cs);
        Run(cs[0], v, log, p, (l: Log) => Run(Any(cs[1..]), v, l, p, f))
    case Pass => p(log)
    case Fail => f(log)
    case ObjectCheck(spec) => ObjectLoop(spec, spec.required, spec.optional, v, log, p, f)
    case ArrayCheck(item) =>
      if TypeOf(v) == "array" then RunItems(item, v.items, 0, log, p, f) else f(log)
  }

  /** `object_schema_loop` with the names still to check as lists:
      `check_one_required_property`, `check_one_optional_property`, and at
      the end `check_extra_properties` when other properties are not
      allowed. An optional property is run even when it is absent, on
      undefined. */
  function ObjectLoop<R>(spec: ObjectSpec, required: seq<(string, Schema)>, optional: seq<(string, Schema)>,
                         v: Value, log: Log, p: Log -> R, f: Log -> R): R
    decreases SizeProps(required) + SizeProps(optional), 0, 0
  {
    if |required| > 0 then
      var name := required[0].0;
      if Missing(v, name) then f(log)
      else
        SizePropsSlice(required);
        Run(required[0].1, Get(v, name), log,
               (l: Log) => ObjectLoop(spec, required[1..], optional, v, l, p, f), f)
    else if |optional| > 0 then
      SizePropsSlice(optional);
      Run(optional[0].1, Get(v, optional[0].0), log,
          (l: Log) => ObjectLoop(spec, required, optional[1..], v, l, p, f), f)
    else if spec.allowOther == Some(false) then
      if NoExtraKeys(spec, v) then p(log) else f(log)
    else p(log)
  }

  /** The item `loop(index, p, f)` of `s.Array`. */
  function RunItems<R>(item: Schema, vs: seq<Value>, index: nat, log: Log, p: Log -> R, f: Log -> R): R
    requires index <= |vs|
    decreases Size(item) + 1, 0, |vs| - index
  {
    if index == |vs| then p(log)
    else Run(item, vs[index], log, (l: Log) => RunItems(item, vs, index + 1, l, p, f), f)
  }

  /** The values a schema accepts. */
  predicate Accepts(s: Schema, v: Value)
    decreases s
  {
    match s
    case Condition(check) => check(v)
    case Every(cs) => forall i | 0 <= i < |cs| :: Accepts(cs[i], v)
    case Any(cs) => exists i | 0 <= i < |cs| :: Accepts(cs[i], v)
    case Pass => true
    case Fail => false
    case ObjectCheck(spec) =>
      && (forall i | 0 <= i < |spec.required| ::
            !Missing(v, spec.required[i].0) && Accepts(spec.required[i].1, Get(v, spec.required[i].0)))
      && (forall i | 0 <= i < |spec.optional| ::
            Accepts(spec.optional[i].1, Get(v, spec.optional[i].0)))
      && (spec.allowOther == Some(false) ==> NoExtraKeys(spec, v))
    case ArrayCheck(item) =>
      v.Arr? && forall i | 0 <= i < |v.items| :: Accepts(item, v.items[i])
  }

  /** What the object loop demands of the names still to check. */
  predicate LoopAccepts(spec: ObjectSpec, required: seq<(string, Schema)>, optional: seq<(string, Schema)>,
                        v: Value)
  {
    && (forall i | 0 <= i < |required| :: !Missing(v, required[i].0) && Accepts(required[i].1, Get(v, required[i].0)))
    && (forall i | 0 <= i < |optional| :: Accepts(optional[i].1, Get(v, optional[i].0)))
    && (spec.allowOther == Some(false) ==> NoExtraKeys(spec, v))
  }

  /** The predicate calls a run makes: a conjunction stops after the first
      rejecting schema, a disjunction after the first accepting one, the
      object loop after the first missing or rejected property, the array
      loop after the first rejected item. */
  function Trace(s: Schema, v: Value): Log
    decreases Size(s), 1, 0
  {
    match s
    case Condition(check) => [Called(check, v)]
    case Every(cs) =>
      if |cs| == 0 then []
      else
        SizeSlice(cs);
        Trace(cs[0], v) + if Accepts(cs[0], v) then Trace(Every(cs[1..]), v) else []
    case Any(cs) =>
      if |cs| == 0 then []
      else
        SizeSlice(cs);
        Trace(cs[0], v) + if Accepts(cs[0], v) then [] else Trace(Any(cs[1..]), v)
    case Pass => []
    case Fail => []
    case ObjectCheck(spec) => ObjectTrace(spec.required, spec.optional, v)
    case ArrayCheck(item) => if v.Arr? then ItemsTrace(item, v.items, 0) else []
  }

  function ObjectTrace(required: seq<(string, Schema)>, optional: seq<(string, Schema)>, v: Value): Log
    decreases SizeProps(required) + SizeProps(optional), 0, 0
  {
    if |required| > 0 then
      var name := required[0].0;
      if Missing(v, name) then []
      else
        SizePropsSlice(required);
        Trace(required[0].1, Get(v, name)) +
        if Accepts(required[0].1, Get(v, name)) then ObjectTrace(required[1..], optional, v) else []
    else if |optional| > 0 then
      var name := optional[0].0;
      SizePropsSlice(optional);
      Trace(optional[0].1, Get(v, name)) +
      if Accepts(optional[0].1, Get(v, name)) then ObjectTrace(required, optional[1..], v) else []
    else []
  }

  function ItemsTrace(item: Schema, vs: seq<Value>, i: nat): Log
    requires i <= |vs|
    decreases Size(item) + 1, 0, |vs| - i
  {
    if i == |vs| then []
    else Trace(item, vs[i]) + if Accepts(item, vs[i]) then ItemsTrace(item, vs, i + 1) else []
  }

  /** The traces of the first `n` schemas of `cs` on `v`, concatenated. */
  function TracePrefix(cs: seq<Schema>, n: nat, v: Value): Log
    requires n <= |cs|
  {
    if n == 0 then [] else Trace(cs[0], v) + TracePrefix(cs[1..], n - 1, v)
  }

  /** The continuation-passing run calls `p` when the schema accepts and `f`
      otherwise, once, after exactly the predicate calls of `Trace`. */
  lemma {:induction false} RunMatchesAccepts<R>(s: Schema, v: Value, log: Log, p: Log -> R, f: Log -> R)
    ensures Run(s, v, log, p, f) ==
            if Accepts(s, v) then p(log + Trace(s, v)) else f(log + Trace(s, v))
    decreases Size(s), 1, 1
  {
    match s
    case Condition(check) =>
    case Every(cs) =>
      EveryMatches(cs, v, log, p, f);
    case Any(cs) =>
      AnyMatches(cs, v, log, p, f);
    case Pass =>
      PassAndFailDecide(v, log, p, f);
    case Fail =>
      PassAndFailDecide(v, log, p, f);
    case ObjectCheck(spec) =>
      ObjectLoopMatches(spec, spec.required, spec.optional, v, log, p, f);
    case ArrayCheck(item) =>
      ArrayMatches(item, v, log, p, f);
  }

  /** Pass always calls p and Fail always calls f, and neither calls a
      predicate. */
  lemma PassAndFailDecide<R>(v: Value, log: Log, p: Log -> R, f: Log -> R)
    ensures Accepts(Pass, v) && Trace(Pass, v) == [] && Run(Pass, v, log, p, f) == p(log + [])
    ensures !Accepts(Fail, v) && Trace(Fail, v) == [] && Run(Fail, v, log, p, f) == f(log + [])
  {
    assert log + [] == log;
  }

  lemma {:induction false} ArrayMatches<R>(item: Schema, v: Value, log: Log, p: Log -> R, f: Log -> R)
    ensures var s := ArrayCheck(item);
            Run(s, v, log, p, f) == if Accepts(s, v) then p(log + Trace(s, v)) else f(log + Trace(s, v))
    decreases Size(ArrayCheck(item)), 1, 0
  {
    if v.Arr? {
      RunItemsMatches(item, v.items, 0, log, p, f);
      AllItemsMeans(item, v.items, 0);
    } else {
      assert log + [] == log;
    }
  }

  lemma {:induction false} EveryMatches<R>(cs: seq<Schema>, v: Value, log: Log, p: Log -> R, f: Log -> R)
    ensures var s := Every(cs);
            Run(s, v, log, p, f) == if Accepts(s, v) then p(log + Trace(s, v)) else f(log + Trace(s, v))
    decreases Size(Every(cs)), 1, 0
  {
    if |cs| == 0 {
      assert log + [] == log;
    } else {
      SizeSlice(cs);
      var k := (l: Log) => Run(Every(cs[1..]), v, l, p, f);
      RunMatchesAccepts(cs[0], v, log, k, f);
      if Accepts(cs[0], v) {
        RunMatchesAccepts(Every(cs[1..]), v, log + Trace(cs[0], v), p, f);
        assert log + Trace(cs[0], v) + Trace(Every(cs[1..]), v) ==
               log + (Trace(cs[0], v) + Trace(Every(cs[1..]), v));
        AllSplit(cs, v);
      } else {
        assert Trace(cs[0], v) + [] == Trace(cs[0], v);
      }
    }
  }

  lemma {:induction false} AnyMatches<R>(cs: seq<Schema>, v: Value, log: Log, p: Log -> R, f: Log -> R)
    ensures var s := Any(cs);
            Run(s, v, log, p, f) == if Accepts(s, v) then p(log + Trace(s, v)) else f(log + Trace(s, v))
    decreases Size(Any(cs)), 1, 0
  {
    if |cs| == 0 {
      assert log + [] == log;
    } else {
      SizeSlice(cs);
      var k := (l: Log) => Run(Any(cs[1..]), v, l, p, f);
      RunMatchesAccepts(cs[0], v, log, p, k);
      if !Accepts(cs[0], v) {
        RunMatchesAccepts(Any(cs[1..]), v, log + Trace(cs[0], v), p, f);
        assert log + Trace(cs[0], v) + Trace(Any(cs[1..]), v) ==
               log + (Trace(cs[0], v) + Trace(Any(cs[1..]), v));
        SomeSplit(cs, v);
      } else {
        assert Trace(cs[0], v) + [] == Trace(cs[0], v);
      }
    }
  }

  lemma AllSplit(cs: seq<Schema>, v: Value)
    requires |cs| > 0
    ensures Accepts(Every(cs), v) <==> Accepts(cs[0], v) && Accepts(Every(cs[1..]), v)
  {
    assert forall i | 1 <= i < |cs| :: cs[1..][i - 1] == cs[i];
  }

  lemma SomeSplit(cs: seq<Schema>, v: Value)
    requires |cs| > 0
    ensures Accepts(Any(cs), v) <==> Accepts(cs[0], v) || Accepts(Any(cs[1..]), v)
  {
    assert forall i | 1 <= i < |cs| :: cs[1..][i - 1] == cs[i];
  }

  /** The object loop calls `p` exactly when every remaining required
      property is present and accepted, every remaining optional property
      is accepted, and the closed-object check passes. */
  lemma {:induction false} ObjectLoopMatches<R>(spec: ObjectSpec, required: seq<(string, Schema)>,
                                                optional: seq<(string, Schema)>, v: Value, log: Log,
                                                p: Log -> R, f: Log -> R)
    ensures var t := ObjectTrace(required, optional, v);
            ObjectLoop(spec, required, optional, v, log, p, f) ==
            if LoopAccepts(spec, required, optional, v) then p(log + t) else f(log + t)
    decreases SizeProps(required) + SizeProps(optional), 0, 2
  {
    if |required| > 0 {
      RequiredStepMatches(spec, required, optional, v, log, p, f);
    } else if |optional| > 0 {
      OptionalStepMatches(spec, required, optional, v, log, p, f);
    } else {
      assert log + [] == log;
    }
  }

  /** `check_one_required_property`. */
  lemma {:induction false} RequiredStepMatches<R>(spec: ObjectSpec, required: seq<(string, Schema)>,
                                                  optional: seq<(string, Schema)>, v: Value, log: Log,
                                                  p: Log -> R, f: Log -> R)
    requires |required| > 0
    ensures var t := ObjectTrace(required, optional, v);
            ObjectLoop(spec, required, optional, v, log, p, f) ==
            if LoopAccepts(spec, required, optional, v) then p(log + t) else f(log + t)
    decreases SizeProps(required) + SizeProps(optional), 0, 1
  {
    if Missing(v, required[0].0) {
      assert log + [] == log;
    } else {
      RequiredPresentMatches(spec, required, optional, v, log, p, f);
    }
  }

  /** `check_one_required_property` on a property that is defined. */
  lemma {:induction false} RequiredPresentMatches<R>(spec: ObjectSpec, required: seq<(string, Schema)>,
                                                     optional: seq<(string, Schema)>, v: Value, log: Log,
                                                     p: Log -> R, f: Log -> R)
    requires |required| > 0 && !Missing(v, required[0].0)
    ensures var t := ObjectTrace(required, optional, v);
            ObjectLoop(spec, required, optional, v, log, p, f) ==
            if LoopAccepts(spec, required, optional, v) then p(log + t) else f(log + t)
    decreases SizeProps(required) + SizeProps(optional), 0, 0
  {
    SizePropsSlice(required);
    var x := Get(v, required[0].0);
    var k := (l: Log) => ObjectLoop(spec, required[1..], optional, v, l, p, f);
    RunMatchesAccepts(required[0].1, x, log, k, f);
    if Accepts(required[0].1, x) {
      ObjectLoopMatches(spec, required[1..], optional, v, log + Trace(required[0].1, x), p, f);
      RequiredAcceptStep(required, optional, v);
      Regroup(log, Trace(required[0].1, x), ObjectTrace(required[1..], optional, v));
      RequiredTail(spec, required, optional, v);
    } else {
      assert Trace(required[0].1, x) + [] == Trace(required[0].1, x);
    }
  }

  lemma RequiredAcceptStep(required: seq<(string, Schema)>, optional: seq<(string, Schema)>, v: Value)
    requires |required| > 0
    requires !Missing(v, required[0].0) && Accepts(required[0].1, Get(v, required[0].0))
    ensures ObjectTrace(required, optional, v) ==
            Trace(required[0].1, Get(v, required[0].0)) + ObjectTrace(required[1..], optional, v)
  {
  }

  /** Once the first required property is present and accepted, the loop
      accepts iff it accepts with the rest of the required list. */
  lemma RequiredTail(spec: ObjectSpec, required: seq<(string, Schema)>,
                     optional: seq<(string, Schema)>, v: Value)
    requires |required| > 0
    requires !Missing(v, required[0].0) && Accepts(required[0].1, Get(v, required[0].0))
    ensures LoopAccepts(spec, required, optional, v) <==> LoopAccepts(spec, required[1..], optional, v)
  {
    var rest := required[1..];
    if LoopAccepts(spec, rest, optional, v) {
      forall i | 0 <= i < |required|
        ensures !Missing(v, required[i].0) && Accepts(required[i].1, Get(v, required[i].0))
      {
        if i > 0 {
          assert required[i] == rest[i - 1];
        }
      }
    }
    if LoopAccepts(spec, required, optional, v) {
      forall i | 0 <= i < |rest|
        ensures !Missing(v, rest[i].0) && Accepts(rest[i].1, Get(v, rest[i].0))
      {
        assert rest[i] == required[i + 1];
      }
    }
  }

  /** `check_one_optional_property`. */
  lemma {:induction false} OptionalStepMatches<R>(spec: ObjectSpec, required: seq<(string, Schema)>,
                                                  optional: seq<(string, Schema)>, v: Value, log: Log,
                                                  p: Log -> R, f: Log -> R)
    requires |required| == 0 && |optional| > 0
    ensures var t := ObjectTrace(required, optional, v);
            ObjectLoop(spec, required, optional, v, log, p, f) ==
            if LoopAccepts(spec, required, optional, v) then p(log + t) else f(log + t)
    decreases SizeProps(required) + SizeProps(optional), 0, 0
  {
    SizePropsSlice(optional);
    var x := Get(v, optional[0].0);
    var k := (l: Log) => ObjectLoop(spec, required, optional[1..], v, l, p, f);
    RunMatchesAccepts(optional[0].1, x, log, k, f);
    if Accepts(optional[0].1, x) {
      ObjectLoopMatches(spec, required, optional[1..], v, log + Trace(optional[0].1, x), p, f);
      assert log + Trace(optional[0].1, x) + ObjectTrace(required, optional[1..], v) ==
             log + (Trace(optional[0].1, x) + ObjectTrace(required, optional[1..], v));
      assert forall i | 1 <= i < |optional| :: optional[1..][i - 1] == optional[i];
    } else {
      assert Trace(optional[0].1, x) + [] == Trace(optional[0].1, x);
    }
  }

  lemma {:induction false} RunItemsMatches<R>(item: Schema, vs: seq<Value>, i: nat, log: Log,
                                              p: Log -> R, f: Log -> R)
    requires i <= |vs|
    ensures var t := ItemsTrace(item, vs, i);
            RunItems(item, vs, i, log, p, f) ==
            if AllItems(item, vs, i) then p(log + t) else f(log + t)
    decreases Size(item) + 1, 0, |vs| - i, 1
  {
    if i == |vs| {
      assert log + [] == log;
    } else {
      RunItemsStep(item, vs, i, log, p, f);
    }
  }

  lemma {:induction false} RunItemsStep<R>(item: Schema, vs: seq<Value>, i: nat, log: Log,
                                           p: Log -> R, f: Log -> R)
    requires i < |vs|
    ensures var t := ItemsTrace(item, vs, i);
            RunItems(item, vs, i, log, p, f) ==
            if AllItems(item, vs, i) then p(log + t) else f(log + t)
    decreases Size(item) + 1, 0, |vs| - i, 0
  {
    var k := (l: Log) => RunItems(item, vs, i + 1, l, p, f);
    RunMatchesAccepts(item, vs[i], log, k, f);
    if Accepts(item, vs[i]) {
      RunItemsMatches(item, vs, i + 1, log + Trace(item, vs[i]), p, f);
      Regroup(log, Trace(item, vs[i]), ItemsTrace(item, vs, i + 1));
    } else {
      assert ItemsTrace(item, vs, i) == Trace(item, vs[i]) + [];
      assert Trace(item, vs[i]) + [] == Trace(item, vs[i]);
    }
  }

  /** The item loop from `i` finds every remaining item accepted. */
  predicate AllItems(item: Schema, vs: seq<Value>, i: nat)
    requires i <= |vs|
    decreases |vs| - i
  {
    i == |vs| || (Accepts(item, vs[i]) && AllItems(item, vs, i + 1))
  }

  lemma {:induction false} AllItemsMeans(item: Schema, vs: seq<Value>, i: nat)
    requires i <= |vs|
    ensures AllItems(item, vs, i) <==> forall j | i <= j < |vs| :: Accepts(item, vs[j])
    decreases |vs| - i
  {
    if i < |vs| {
      AllItemsMeans(item, vs, i + 1);
      if AllItems(item, vs, i) {
        forall j | i <= j < |vs|
          ensures Accepts(item, vs[j])
        {
          if j > i {
            assert i + 1 <= j < |vs|;
          }
        }
      }
    }
  }

  /** `Every` on a non-empty list runs the first condition; when it passes
      the run goes on with `Every(conditions.slice(1))` after its calls, and
      when it fails `f` is called without running any later condition. */
  lemma EveryStep<R>(cs: seq<Schema>, v: Value, log: Log, p: Log -> R, f: Log -> R)
    requires |cs| > 0
    ensures Run(Every(cs), v, log, p, f) ==
            if Accepts(cs[0], v) then Run(Every(cs[1..]), v, log + Trace(cs[0], v), p, f)
            else f(log + Trace(cs[0], v))
  {
    var k := (l: Log) => Run(Every(cs[1..]), v, l, p, f);
    RunMatchesAccepts(cs[0], v, log, k, f);
  }

  /** `Any` on a non-empty list calls `p` when the first condition passes,
      and otherwise retries with `Any(conditions.slice(1))` on the same
      value after the first condition's calls. */
  lemma AnyStep<R>(cs: seq<Schema>, v: Value, log: Log, p: Log -> R, f: Log -> R)
    requires |cs| > 0
    ensures Run(Any(cs), v, log, p, f) ==
            if Accepts(cs[0], v) then p(log + Trace(cs[0], v))
            else Run(Any(cs[1..]), v, log + Trace(cs[0], v), p, f)
  {
    var k := (l: Log) => Run(Any(cs[1..]), v, l, p, f);
    RunMatchesAccepts(cs[0], v, log, p, k);
  }

  /** When `cs[i]` is the first condition to reject, `Every(cs)` fails after
      the calls of `cs[0..i+1]` and of nothing after. */
  lemma {:induction false} EveryStopsAt<R>(cs: seq<Schema>, i: nat, v: Value, log: Log, p: Log -> R, f: Log -> R)
    requires i < |cs| && !Accepts(cs[i], v)
    requires forall j | 0 <= j < i :: Accepts(cs[j], v)
    ensures Run(Every(cs), v, log, p, f) == f(log + TracePrefix(cs, i + 1, v))
    decreases i, 1
  {
    if i == 0 {
      EveryStep(cs, v, log, p, f);
      var t := Trace(cs[0], v);
      assert TracePrefix(cs, 1, v) == t + [];
      assert t + [] == t;
    } else {
      EveryStopsLater(cs, i, v, log, p, f);
    }
  }

  lemma {:induction false} EveryStopsLater<R>(cs: seq<Schema>, i: nat, v: Value, log: Log, p: Log -> R, f: Log -> R)
    requires 0 < i
    requires i < |cs| && !Accepts(cs[i], v)
    requires forall j | 0 <= j < i :: Accepts(cs[j], v)
    ensures Run(Every(cs), v, log, p, f) == f(log + TracePrefix(cs, i + 1, v))
    decreases i, 0
  {
    EveryStep(cs, v, log, p, f);
    var t := Trace(cs[0], v);
    forall j | 0 <= j < i - 1
      ensures Accepts(cs[1..][j], v)
    {
      assert cs[1..][j] == cs[j + 1];
    }
    assert cs[1..][i - 1] == cs[i];
    EveryStopsAt(cs[1..], i - 1, v, log + t, p, f);
    assert log + t + TracePrefix(cs[1..], i, v) == log + (t + TracePrefix(cs[1..], i, v));
  }

  /** When `cs[i]` is the first condition to accept, `Any(cs)` passes after
      the calls of `cs[0..i+1]`: each earlier one was tried and failed. */
  lemma {:induction false} AnyStopsAt<R>(cs: seq<Schema>, i: nat, v: Value, log: Log, p: Log -> R, f: Log -> R)
    requires i < |cs| && Accepts(cs[i], v)
    requires forall j | 0 <= j < i :: !Accepts(cs[j], v)
    ensures Run(Any(cs), v, log, p, f) == p(log + TracePrefix(cs, i + 1, v))
    decreases i, 1
  {
    if i == 0 {
      AnyStep(cs, v, log, p, f);
      var t := Trace(cs[0], v);
      assert TracePrefix(cs, 1, v) == t + [];
      assert t + [] == t;
    } else {
      AnyStopsLater(cs, i, v, log, p, f);
    }
  }

  lemma {:induction false} AnyStopsLater<R>(cs: seq<Schema>, i: nat, v: Value, log: Log, p: Log -> R, f: Log -> R)
    requires 0 < i
    requires i < |cs| && Accepts(cs[i], v)
    requires forall j | 0 <= j < i :: !Accepts(cs[j], v)
    ensures Run(Any(cs), v, log, p, f) == p(log + TracePrefix(cs, i + 1, v))
    decreases i, 0
  {
    AnyStep(cs, v, log, p, f);
    var t := Trace(cs[0], v);
    forall j | 0 <= j < i - 1
      ensures !Accepts(cs[1..][j], v)
    {
      assert cs[1..][j] == cs[j + 1];
    }
    assert cs[1..][i - 1] == cs[i];
    AnyStopsAt(cs[1..], i - 1, v, log + t, p, f);
    assert log + t + TracePrefix(cs[1..], i, v) == log + (t + TracePrefix(cs[1..], i, v));
  }

}
