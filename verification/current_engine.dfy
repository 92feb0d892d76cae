/** The schema engine of src/jsoSchema.js.

    A schema is a function `(value, p, f)` that ends by calling the pass
    continuation `p` or the fail continuation `f`. Every closure shape the
    file creates is one constructor of `Schema`, and `Run` is what calling
    such a closure does. `Accepts` says declaratively which values a
    schema accepts, `Trace` which predicate calls its run makes, and
    `RunMatchesAccepts` proves that the continuation-passing run agrees
    with both. */
module CurrentEngine {
  import opened JsValues
  import opened Protocol

  datatype Schema =
      /** Condition(valueCheck): pass iff the predicate's result is truthy;
          a JavaScript predicate `P` is modelled as `x => Truthy(P(x))`. */
    | Condition(check: Value -> bool)
      /** Every(conditions): short-circuit conjunction, an index loop. */
    | Every(conditions: seq<Schema>)
      /** Any(conditions): short-circuit disjunction, an index loop. */
    | Any(conditions: seq<Schema>)
      /** Pass(): always calls p. */
    | Pass
      /** Fail(...): always calls f. */
    | Fail
      /** The per-property closure Object pushes: run `schema` on the own
          property `name`; when it is missing, fail if `required`, else pass. */
    | PropertyCheck(name: string, schema: Schema, required: bool)
      /** Array(item, length): And(OfType("array"), the length closure,
          the item loop). */
    | ArrayCheck(item: Schema, length: Schema)
      /** Tuple(s1, ..., sn): And(OfType("array"), the arity and item loop). */
    | TupleCheck(items: seq<Schema>)

  /** The predicate of OfType(typeName). */
  function IsOfType(typeName: string): Value -> bool {
    (x: Value) => TypeOf(x) == typeName
  }

  /** Calling schema `s` on value `v` with continuations `p` and `f`, after
      the predicate calls in `log`. */
  function Run<R>(s: Schema, v: Value, log: Log, p: Log -> R, f: Log -> R): R
    decreases s, 1, 0
  {
    match s
    case Condition(check) =>
      if check(v) then p(log + [Called(check, v)]) else f(log + [Called(check, v)])
    case Every(cs) => RunEvery(cs, 0, v, log, p, f)
    case Any(cs) => RunAny(cs, 0, v, log, p, f)
    case Pass => p(log)
    case Fail => f(log)
    case PropertyCheck(name, schema, required) =>
      if HasOwn(v, name) then Run(schema, Get(v, name), log, p, f)
      else if required then f(log)
      else p(log)
    case ArrayCheck(item, length) =>
      var typed := log + [Called(IsOfType("array"), v)];
      if TypeOf(v) != "array" then f(typed)
      else Run(length, Num(|v.items| as real), typed,
               (l: Log) => RunItems(item, length, v.items, 0, l, p, f), f)
    case TupleCheck(items) =>
      var typed := log + [Called(IsOfType("array"), v)];
      if TypeOf(v) != "array" then f(typed)
      else if |items| != |v.items| then f(typed)
      else RunTuple(items, v.items, 0, typed, p, f)
  }

  /** Every's `loop(index)`. */
  function RunEvery<R>(cs: seq<Schema>, index: nat, v: Value, log: Log, p: Log -> R, f: Log -> R): R
    requires index <= |cs|
    decreases Every(cs), 0, |cs| - index
  {
    if index == |cs| then p(log)
    else Run(cs[index], v, log, (l: Log) => RunEvery(cs, index + 1, v, l, p, f), f)
  }

  /** Any's `loop(index)`: a failure retries with the next schema. */
  function RunAny<R>(cs: seq<Schema>, index: nat, v: Value, log: Log, p: Log -> R, f: Log -> R): R
    requires index <= |cs|
    decreases Any(cs), 0, |cs| - index
  {
    if index == |cs| then f(log)
    else Run(cs[index], v, log, p, (l: Log) => RunAny(cs, index + 1, v, l, p, f))
  }

  /** Array's item `loop(index)`. */
  function RunItems<R>(item: Schema, length: Schema, vs: seq<Value>, index: nat,
                       log: Log, p: Log -> R, f: Log -> R): R
    requires index <= |vs|
    decreases ArrayCheck(item, length), 0, |vs| - index
  {
    if index == |vs| then p(log)
    else Run(item, vs[index], log, (l: Log) => RunItems(item, length, vs, index + 1, l, p, f), f)
  }

  /** Tuple's item `loop(index)`, entered once the lengths agree. */
  function RunTuple<R>(items: seq<Schema>, vs: seq<Value>, index: nat,
                       log: Log, p: Log -> R, f: Log -> R): R
    requires |items| == |vs| && index <= |vs|
    decreases TupleCheck(items), 0, |items| - index
  {
    if |vs| == index then p(log)
    else Run(items[index], vs[index], log, (l: Log) => RunTuple(items, vs, index + 1, l, p, f), f)
  }

  /** The values a schema accepts. */
  predicate Accepts(s: Schema, v: Value)
    decreases s
  {
    match s
    case Condition(check) => check(v)
    case Every(cs) => forall i | 0 <= i < |cs| :: Accepts(cs[i], v)
    case Any(cs) => exists i | 0 <= i < |cs| :: Accepts(cs[i], v)
    case Pass => true
    case Fail => false
    case PropertyCheck(name, schema, required) =>
      if HasOwn(v, name) then Accepts(schema, Get(v, name)) else !required
    case ArrayCheck(item, length) =>
      && v.Arr?
      && Accepts(length, Num(|v.items| as real))
      && forall i | 0 <= i < |v.items| :: Accepts(item, v.items[i])
    case TupleCheck(items) =>
      && v.Arr?
      && |v.items| == |items|
      && forall i | 0 <= i < |items| :: Accepts(items[i], v.items[i])
  }

  /** The verdict of each schema of a list on one value. */
  function Verdicts(cs: seq<Schema>, v: Value): (bs: seq<bool>)
    ensures |bs| == |cs|
    ensures forall i | 0 <= i < |cs| :: bs[i] == Accepts(cs[i], v)
  {
    seq(|cs|, i requires 0 <= i < |cs| => Accepts(cs[i], v))
  }

  /** The verdict of one schema on each value of a list. */
  function ItemVerdicts(item: Schema, vs: seq<Value>): (bs: seq<bool>)
    ensures |bs| == |vs|
    ensures forall i | 0 <= i < |vs| :: bs[i] == Accepts(item, vs[i])
  {
    seq(|vs|, i requires 0 <= i < |vs| => Accepts(item, vs[i]))
  }

  /** The verdict of each schema of a list on the value at the same index. */
  function PairVerdicts(items: seq<Schema>, vs: seq<Value>): (bs: seq<bool>)
    requires |items| == |vs|
    ensures |bs| == |items|
    ensures forall i | 0 <= i < |items| :: bs[i] == Accepts(items[i], vs[i])
  {
    seq(|items|, i requires 0 <= i < |items| => Accepts(items[i], vs[i]))
  }

  /** The predicate calls a run of `s` on `v` makes, in order. A conjunction
      runs its schemas up to and including the first rejecting one, a
      disjunction up to and including the first accepting one, an array its
      items up to and including the first rejected one. */
  function Trace(s: Schema, v: Value): Log
    decreases s, 0, 0
  {
    match s
    case Condition(check) => [Called(check, v)]
    case Every(cs) => TraceRange(cs, 0, ScanEnd(Verdicts(cs, v), 0, true), v)
    case Any(cs) => TraceRange(cs, 0, ScanEnd(Verdicts(cs, v), 0, false), v)
    case Pass => []
    case Fail => []
    case PropertyCheck(name, schema, _) =>
      if HasOwn(v, name) then Trace(schema, Get(v, name)) else []
    case ArrayCheck(item, length) =>
      [Called(IsOfType("array"), v)] +
      if !v.Arr? then []
      else
        var n := Num(|v.items| as real);
        Trace(length, n) +
        if !Accepts(length, n) then []
        else TraceItems(item, v.items, 0, ScanEnd(ItemVerdicts(item, v.items), 0, true))
    case TupleCheck(items) =>
      [Called(IsOfType("array"), v)] +
      if !v.Arr? || |items| != |v.items| then []
      else TraceTuple(items, v.items, 0, ScanEnd(PairVerdicts(items, v.items), 0, true))
  }

  /** The traces of `cs[i..j]` on `v`, concatenated. */
  function TraceRange(cs: seq<Schema>, i: nat, j: nat, v: Value): Log
    requires i <= j <= |cs|
    decreases cs, 1, j - i
  {
    if i == j then [] else Trace(cs[i], v) + TraceRange(cs, i + 1, j, v)
  }

  /** The traces of `item` on `vs[i..j]`, concatenated. */
  function TraceItems(item: Schema, vs: seq<Value>, i: nat, j: nat): Log
    requires i <= j <= |vs|
    decreases item, 1, j - i
  {
    if i == j then [] else Trace(item, vs[i]) + TraceItems(item, vs, i + 1, j)
  }

  /** The traces of `items[k]` on `vs[k]` for `k` in `[i, j)`, concatenated. */
  function TraceTuple(items: seq<Schema>, vs: seq<Value>, i: nat, j: nat): Log
    requires |items| == |vs| && i <= j <= |vs|
    decreases items, 1, j - i
  {
    if i == j then [] else Trace(items[i], vs[i]) + TraceTuple(items, vs, i + 1, j)
  }

  /** The continuation-passing run calls exactly one continuation, once, in
      tail position: `p` when the schema accepts the value and `f`
      otherwise, in both cases after exactly the predicate calls of
      `Trace`. */
  lemma {:induction false} RunMatchesAccepts<R>(s: Schema, v: Value, log: Log, p: Log -> R, f: Log -> R)
    ensures Run(s, v, log, p, f) ==
            if Accepts(s, v) then p(log + Trace(s, v)) else f(log + Trace(s, v))
    decreases s, 1, 1
  {
    match s
    case Condition(check) =>
    case Every(cs) =>
      RunEveryMatches(cs, 0, v, log, p, f);
    case Any(cs) =>
      RunAnyMatches(cs, 0, v, log, p, f);
    case Pass =>
      PassAndFailDecide(v, log, p, f);
    case Fail =>
      PassAndFailDecide(v, log, p, f);
    case PropertyCheck(name, schema, required) =>
      RunPropertyMatches(name, schema, required, v, log, p, f);
    case ArrayCheck(item, length) =>
      RunArrayMatches(item, length, v, log, p, f);
    case TupleCheck(items) =>
      RunTupleCheckMatches(items, v, log, p, f);
  }

  /** Pass always calls p and Fail always calls f, and neither calls a
      predicate. */
  lemma PassAndFailDecide<R>(v: Value, log: Log, p: Log -> R, f: Log -> R)
    ensures Accepts(Pass, v) && Trace(Pass, v) == [] && Run(Pass, v, log, p, f) == p(log + [])
    ensures !Accepts(Fail, v) && Trace(Fail, v) == [] && Run(Fail, v, log, p, f) == f(log + [])
  {
    assert log + [] == log;
  }

  /** The per-property closure: a missing own property fails when required
      and passes otherwise, calling nothing; a present one is decided by its
      schema run on the property's value. */
  lemma {:induction false} RunPropertyMatches<R>(name: string, schema: Schema, required: bool, v: Value, log: Log,
                                                 p: Log -> R, f: Log -> R)
    ensures var s := PropertyCheck(name, schema, required);
            Run(s, v, log, p, f) ==
            if Accepts(s, v) then p(log + Trace(s, v)) else f(log + Trace(s, v))
    ensures !HasOwn(v, name) ==>
              Accepts(PropertyCheck(name, schema, required), v) == !required &&
              Trace(PropertyCheck(name, schema, required), v) == []
    ensures HasOwn(v, name) ==>
              Accepts(PropertyCheck(name, schema, required), v) == Accepts(schema, Get(v, name))
    decreases PropertyCheck(name, schema, required), 1, 0
  {
    if HasOwn(v, name) {
      RunMatchesAccepts(schema, Get(v, name), log, p, f);
    } else {
      assert log + [] == log;
    }
  }

  lemma {:induction false} RunArrayMatches<R>(item: Schema, length: Schema, v: Value, log: Log, p: Log -> R, f: Log -> R)
    ensures var s := ArrayCheck(item, length);
            Run(s, v, log, p, f) ==
            if Accepts(s, v) then p(log + Trace(s, v)) else f(log + Trace(s, v))
    decreases ArrayCheck(item, length), 1, 0
  {
    var typed := log + [Called(IsOfType("array"), v)];
    if v.Arr? {
      var n := Num(|v.items| as real);
      var k := (l: Log) => RunItems(item, length, v.items, 0, l, p, f);
      RunMatchesAccepts(length, n, typed, k, f);
      if Accepts(length, n) {
        RunItemsMatches(item, length, v.items, 0, typed + Trace(length, n), p, f);
        ArrayTraceItems(item, length, v, log);
      } else {
        ArrayTraceLength(item, length, v, log);
      }
    } else {
      assert log + Trace(ArrayCheck(item, length), v) == typed;
    }
  }

  /** The calls of an array whose length is accepted: the type test, the
      length schema, then the item loop. */
  lemma ArrayTraceItems(item: Schema, length: Schema, v: Value, log: Log)
    requires v.Arr? && Accepts(length, Num(|v.items| as real))
    ensures var n := Num(|v.items| as real);
            var e := ScanEnd(ItemVerdicts(item, v.items), 0, true);
            && log + Trace(ArrayCheck(item, length), v) ==
               log + [Called(IsOfType("array"), v)] + Trace(length, n) + TraceItems(item, v.items, 0, e)
            && (Accepts(ArrayCheck(item, length), v) <==> forall j | 0 <= j < |v.items| :: Accepts(item, v.items[j]))
  {
  }

  /** The calls of an array whose length is rejected: the type test and the
      length schema only. */
  lemma ArrayTraceLength(item: Schema, length: Schema, v: Value, log: Log)
    requires v.Arr? && !Accepts(length, Num(|v.items| as real))
    ensures log + Trace(ArrayCheck(item, length), v) ==
            log + [Called(IsOfType("array"), v)] + Trace(length, Num(|v.items| as real))
    ensures !Accepts(ArrayCheck(item, length), v)
  {
    var n := Num(|v.items| as real);
    assert Trace(ArrayCheck(item, length), v) == [Called(IsOfType("array"), v)] + (Trace(length, n) + []);
    Regroup(log, [Called(IsOfType("array"), v)], Trace(length, n));
  }

  lemma {:induction false} RunTupleCheckMatches<R>(items: seq<Schema>, v: Value, log: Log, p: Log -> R, f: Log -> R)
    ensures var s := TupleCheck(items);
            Run(s, v, log, p, f) ==
            if Accepts(s, v) then p(log + Trace(s, v)) else f(log + Trace(s, v))
    decreases TupleCheck(items), 1, 0
  {
    var typed := log + [Called(IsOfType("array"), v)];
    if v.Arr? && |items| == |v.items| {
      RunTupleMatches(items, v.items, 0, typed, p, f);
      TupleTraceItems(items, v, log);
    } else {
      assert log + Trace(TupleCheck(items), v) == typed;
    }
  }

  /** The calls of an array of the right length: the type test, then the
      element loop. */
  lemma TupleTraceItems(items: seq<Schema>, v: Value, log: Log)
    requires v.Arr? && |items| == |v.items|
    ensures var e := ScanEnd(PairVerdicts(items, v.items), 0, true);
            log + Trace(TupleCheck(items), v) ==
            log + [Called(IsOfType("array"), v)] + TraceTuple(items, v.items, 0, e)
  {
  }

  lemma {:induction false} RunEveryMatches<R>(cs: seq<Schema>, i: nat, v: Value, log: Log, p: Log -> R, f: Log -> R)
    requires i <= |cs|
    ensures var t := TraceRange(cs, i, ScanEnd(Verdicts(cs, v), i, true), v);
            RunEvery(cs, i, v, log, p, f) ==
            if forall j | i <= j < |cs| :: Accepts(cs[j], v) then p(log + t) else f(log + t)
    decreases Every(cs), 0, |cs| - i, 1
  {
    if i == |cs| {
      assert log + [] == log;
    } else {
      RunEveryStep(cs, i, v, log, p, f);
    }
  }

  lemma {:induction false} RunEveryStep<R>(cs: seq<Schema>, i: nat, v: Value, log: Log, p: Log -> R, f: Log -> R)
    requires i < |cs|
    ensures var t := TraceRange(cs, i, ScanEnd(Verdicts(cs, v), i, true), v);
            RunEvery(cs, i, v, log, p, f) ==
            if forall j | i <= j < |cs| :: Accepts(cs[j], v) then p(log + t) else f(log + t)
    decreases Every(cs), 0, |cs| - i, 0
  {
    var k := (l: Log) => RunEvery(cs, i + 1, v, l, p, f);
    RunMatchesAccepts(cs[i], v, log, k, f);
    if Accepts(cs[i], v) {
      RunEveryMatches(cs, i + 1, v, log + Trace(cs[i], v), p, f);
      RangePassStep(cs, i, v, true, log);
    } else {
      RangeStopStep(cs, i, v, true);
    }
  }

  lemma {:induction false} RunAnyMatches<R>(cs: seq<Schema>, i: nat, v: Value, log: Log, p: Log -> R, f: Log -> R)
    requires i <= |cs|
    ensures var t := TraceRange(cs, i, ScanEnd(Verdicts(cs, v), i, false), v);
            RunAny(cs, i, v, log, p, f) ==
            if exists j | i <= j < |cs| :: Accepts(cs[j], v) then p(log + t) else f(log + t)
    decreases Any(cs), 0, |cs| - i, 1
  {
    if i == |cs| {
      assert log + [] == log;
    } else {
      RunAnyStep(cs, i, v, log, p, f);
    }
  }

  lemma {:induction false} RunAnyStep<R>(cs: seq<Schema>, i: nat, v: Value, log: Log, p: Log -> R, f: Log -> R)
    requires i < |cs|
    ensures var t := TraceRange(cs, i, ScanEnd(Verdicts(cs, v), i, false), v);
            RunAny(cs, i, v, log, p, f) ==
            if exists j | i <= j < |cs| :: Accepts(cs[j], v) then p(log + t) else f(log + t)
    decreases Any(cs), 0, |cs| - i, 0
  {
    var k := (l: Log) => RunAny(cs, i + 1, v, l, p, f);
    RunMatchesAccepts(cs[i], v, log, p, k);
    if !Accepts(cs[i], v) {
      RunAnyMatches(cs, i + 1, v, log + Trace(cs[i], v), p, f);
      RangePassStep(cs, i, v, false, log);
    } else {
      RangeStopStep(cs, i, v, false);
    }
  }

  /** A scan over `cs` that passes `cs[i]` traces it and goes on from
      `i + 1`. */
  lemma RangePassStep(cs: seq<Schema>, i: nat, v: Value, b: bool, log: Log)
    requires i < |cs| && Accepts(cs[i], v) == b
    ensures var t := TraceRange(cs, i + 1, ScanEnd(Verdicts(cs, v), i + 1, b), v);
            && TraceRange(cs, i, ScanEnd(Verdicts(cs, v), i, b), v) == Trace(cs[i], v) + t
            && log + Trace(cs[i], v) + t == log + (Trace(cs[i], v) + t)
            && ((forall j | i <= j < |cs| :: Accepts(cs[j], v)) <==>
                Accepts(cs[i], v) && forall j | i + 1 <= j < |cs| :: Accepts(cs[j], v))
            && ((exists j | i <= j < |cs| :: Accepts(cs[j], v)) <==>
                Accepts(cs[i], v) || exists j | i + 1 <= j < |cs| :: Accepts(cs[j], v))
  {
    ScanPasses(Verdicts(cs, v), i, b);
  }

  /** A scan over `cs` that stops at `cs[i]` traces it alone. */
  lemma RangeStopStep(cs: seq<Schema>, i: nat, v: Value, b: bool)
    requires i < |cs| && Accepts(cs[i], v) != b
    ensures TraceRange(cs, i, ScanEnd(Verdicts(cs, v), i, b), v) == Trace(cs[i], v)
  {
    ScanStops(Verdicts(cs, v), i, b);
    assert TraceRange(cs, i, i + 1, v) == Trace(cs[i], v) + [];
  }

  lemma {:induction false} RunItemsMatches<R>(item: Schema, length: Schema, vs: seq<Value>, i: nat,
                                               log: Log, p: Log -> R, f: Log -> R)
    requires i <= |vs|
    ensures var t := TraceItems(item, vs, i, ScanEnd(ItemVerdicts(item, vs), i, true));
            RunItems(item, length, vs, i, log, p, f) ==
            if forall j | i <= j < |vs| :: Accepts(item, vs[j]) then p(log + t) else f(log + t)
    decreases ArrayCheck(item, length), 0, |vs| - i, 1
  {
    if i == |vs| {
      assert log + [] == log;
    } else {
      RunItemsStep(item, length, vs, i, log, p, f);
    }
  }

  lemma {:induction false} RunItemsStep<R>(item: Schema, length: Schema, vs: seq<Value>, i: nat,
                                            log: Log, p: Log -> R, f: Log -> R)
    requires i < |vs|
    ensures var t := TraceItems(item, vs, i, ScanEnd(ItemVerdicts(item, vs), i, true));
            RunItems(item, length, vs, i, log, p, f) ==
            if forall j | i <= j < |vs| :: Accepts(item, vs[j]) then p(log + t) else f(log + t)
    decreases ArrayCheck(item, length), 0, |vs| - i, 0
  {
    var k := (l: Log) => RunItems(item, length, vs, i + 1, l, p, f);
    RunMatchesAccepts(item, vs[i], log, k, f);
    if Accepts(item, vs[i]) {
      RunItemsMatches(item, length, vs, i + 1, log + Trace(item, vs[i]), p, f);
      ItemsAcceptStep(item, vs, i, log);
    } else {
      ItemsRejectStep(item, vs, i);
    }
  }

  /** When item `i` is accepted, the trace from `i` is its trace followed by
      the trace from `i + 1`. */
  lemma ItemsAcceptStep(item: Schema, vs: seq<Value>, i: nat, log: Log)
    requires i < |vs| && Accepts(item, vs[i])
    ensures var t := TraceItems(item, vs, i + 1, ScanEnd(ItemVerdicts(item, vs), i + 1, true));
            && TraceItems(item, vs, i, ScanEnd(ItemVerdicts(item, vs), i, true)) == Trace(item, vs[i]) + t
            && log + Trace(item, vs[i]) + t == log + (Trace(item, vs[i]) + t)
            && ((forall j | i <= j < |vs| :: Accepts(item, vs[j])) <==>
                (forall j | i + 1 <= j < |vs| :: Accepts(item, vs[j])))
  {
    ScanPasses(ItemVerdicts(item, vs), i, true);
  }

  /** When item `i` is rejected, the trace from `i` is its trace alone. */
  lemma ItemsRejectStep(item: Schema, vs: seq<Value>, i: nat)
    requires i < |vs| && !Accepts(item, vs[i])
    ensures TraceItems(item, vs, i, ScanEnd(ItemVerdicts(item, vs), i, true)) == Trace(item, vs[i])
  {
    ScanStops(ItemVerdicts(item, vs), i, true);
    assert TraceItems(item, vs, i, i + 1) == Trace(item, vs[i]) + [];
  }

  lemma {:induction false} RunTupleMatches<R>(items: seq<Schema>, vs: seq<Value>, i: nat,
                                               log: Log, p: Log -> R, f: Log -> R)
    requires |items| == |vs| && i <= |vs|
    ensures var t := TraceTuple(items, vs, i, ScanEnd(PairVerdicts(items, vs), i, true));
            RunTuple(items, vs, i, log, p, f) ==
            if forall j | i <= j < |vs| :: Accepts(items[j], vs[j]) then p(log + t) else f(log + t)
    decreases TupleCheck(items), 0, |items| - i, 1
  {
    if i == |vs| {
      assert log + [] == log;
    } else {
      RunTupleStep(items, vs, i, log, p, f);
    }
  }

  lemma {:induction false} RunTupleStep<R>(items: seq<Schema>, vs: seq<Value>, i: nat,
                                            log: Log, p: Log -> R, f: Log -> R)
    requires |items| == |vs| && i < |vs|
    ensures var t := TraceTuple(items, vs, i, ScanEnd(PairVerdicts(items, vs), i, true));
            RunTuple(items, vs, i, log, p, f) ==
            if forall j | i <= j < |vs| :: Accepts(items[j], vs[j]) then p(log + t) else f(log + t)
    decreases TupleCheck(items), 0, |items| - i, 0
  {
    var k := (l: Log) => RunTuple(items, vs, i + 1, l, p, f);
    RunMatchesAccepts(items[i], vs[i], log, k, f);
    if Accepts(items[i], vs[i]) {
      RunTupleMatches(items, vs, i + 1, log + Trace(items[i], vs[i]), p, f);
      TupleAcceptStep(items, vs, i, log);
    } else {
      TupleRejectStep(items, vs, i);
    }
  }

  /** When element `i` is accepted, the trace from `i` is its trace followed
      by the trace from `i + 1`. */
  lemma TupleAcceptStep(items: seq<Schema>, vs: seq<Value>, i: nat, log: Log)
    requires |items| == |vs| && i < |vs| && Accepts(items[i], vs[i])
    ensures var t := TraceTuple(items, vs, i + 1, ScanEnd(PairVerdicts(items, vs), i + 1, true));
            && TraceTuple(items, vs, i, ScanEnd(PairVerdicts(items, vs), i, true)) == Trace(items[i], vs[i]) + t
            && log + Trace(items[i], vs[i]) + t == log + (Trace(items[i], vs[i]) + t)
            && ((forall j | i <= j < |vs| :: Accepts(items[j], vs[j])) <==>
                (forall j | i + 1 <= j < |vs| :: Accepts(items[j], vs[j])))
  {
    ScanPasses(PairVerdicts(items, vs), i, true);
  }

  /** When element `i` is rejected, the trace from `i` is its trace alone. */
  lemma TupleRejectStep(items: seq<Schema>, vs: seq<Value>, i: nat)
    requires |items| == |vs| && i < |vs| && !Accepts(items[i], vs[i])
    ensures TraceTuple(items, vs, i, ScanEnd(PairVerdicts(items, vs), i, true)) == Trace(items[i], vs[i])
  {
    ScanStops(PairVerdicts(items, vs), i, true);
    assert TraceTuple(items, vs, i, i + 1) == Trace(items[i], vs[i]) + [];
  }

  /** Running `Every(cs + rest)` is running `Every(cs)` and, when it passes,
      going on with `Every(rest)` after the calls `cs` made. */
  lemma {:induction false} EverySequences<R>(cs: seq<Schema>, rest: seq<Schema>, v: Value, log: Log,
                                             p: Log -> R, f: Log -> R)
    ensures Run(Every(cs + rest), v, log, p, f) ==
            Run(Every(cs), v, log, (l: Log) => Run(Every(rest), v, l, p, f), f)
  {
    EveryAppendAt(cs, rest, 0, v, log, p, f);
  }

  lemma {:induction false} EveryAppendAt<R>(cs: seq<Schema>, rest: seq<Schema>, i: nat, v: Value, log: Log,
                                            p: Log -> R, f: Log -> R)
    requires i <= |cs|
    ensures RunEvery(cs + rest, i, v, log, p, f) ==
            RunEvery(cs, i, v, log, (l: Log) => Run(Every(rest), v, l, p, f), f)
    decreases |cs| - i
  {
    var q := (l: Log) => Run(Every(rest), v, l, p, f);
    if i == |cs| {
      EveryShift(cs, rest, 0, v, log, p, f);
    } else {
      assert (cs + rest)[i] == cs[i];
      var kl := (l: Log) => RunEvery(cs + rest, i + 1, v, l, p, f);
      var kr := (l: Log) => RunEvery(cs, i + 1, v, l, q, f);
      RunMatchesAccepts(cs[i], v, log, kl, f);
      RunMatchesAccepts(cs[i], v, log, kr, f);
      if Accepts(cs[i], v) {
        EveryAppendAt(cs, rest, i + 1, v, log + Trace(cs[i], v), p, f);
      }
    }
  }

  /** The loop of `Every(cs + rest)` past `cs` is the loop of `Every(rest)`. */
  lemma {:induction false} EveryShift<R>(cs: seq<Schema>, rest: seq<Schema>, j: nat, v: Value, log: Log,
                                         p: Log -> R, f: Log -> R)
    requires j <= |rest|
    ensures RunEvery(cs + rest, |cs| + j, v, log, p, f) == RunEvery(rest, j, v, log, p, f)
    decreases |rest| - j
  {
    if j < |rest| {
      assert (cs + rest)[|cs| + j] == rest[j];
      var kl := (l: Log) => RunEvery(cs + rest, |cs| + j + 1, v, l, p, f);
      var kr := (l: Log) => RunEvery(rest, j + 1, v, l, p, f);
      RunMatchesAccepts(rest[j], v, log, kl, f);
      RunMatchesAccepts(rest[j], v, log, kr, f);
      if Accepts(rest[j], v) {
        EveryShift(cs, rest, j + 1, v, log + Trace(rest[j], v), p, f);
      }
    }
  }

  /** Once a conjunction rejects, schemas appended after it are never run:
      the outcome and the calls made do not depend on `rest`. */
  lemma EveryStopsAtFirstRejection<R>(cs: seq<Schema>, rest: seq<Schema>, v: Value, log: Log,
                                      p: Log -> R, f: Log -> R)
    requires !Accepts(Every(cs), v)
    ensures Run(Every(cs + rest), v, log, p, f) == f(log + Trace(Every(cs), v))
  {
    EverySequences(cs, rest, v, log, p, f);
    RunMatchesAccepts(Every(cs), v, log, (l: Log) => Run(Every(rest), v, l, p, f), f);
  }

  /** Running `Any(cs + rest)` is running `Any(cs)` and, when it fails,
      retrying with `Any(rest)` on the same value. */
  lemma {:induction false} AnySequences<R>(cs: seq<Schema>, rest: seq<Schema>, v: Value, log: Log,
                                           p: Log -> R, f: Log -> R)
    ensures Run(Any(cs + rest), v, log, p, f) ==
            Run(Any(cs), v, log, p, (l: Log) => Run(Any(rest), v, l, p, f))
  {
    AnyAppendAt(cs, rest, 0, v, log, p, f);
  }

  lemma {:induction false} AnyAppendAt<R>(cs: seq<Schema>, rest: seq<Schema>, i: nat, v: Value, log: Log,
                                          p: Log -> R, f: Log -> R)
    requires i <= |cs|
    ensures RunAny(cs + rest, i, v, log, p, f) ==
            RunAny(cs, i, v, log, p, (l: Log) => Run(Any(rest), v, l, p, f))
    decreases |cs| - i
  {
    var q := (l: Log) => Run(Any(rest), v, l, p, f);
    if i == |cs| {
      AnyShift(cs, rest, 0, v, log, p, f);
    } else {
      assert (cs + rest)[i] == cs[i];
      var kl := (l: Log) => RunAny(cs + rest, i + 1, v, l, p, f);
      var kr := (l: Log) => RunAny(cs, i + 1, v, l, p, q);
      RunMatchesAccepts(cs[i], v, log, p, kl);
      RunMatchesAccepts(cs[i], v, log, p, kr);
      if !Accepts(cs[i], v) {
        AnyAppendAt(cs, rest, i + 1, v, log + Trace(cs[i], v), p, f);
      }
    }
  }

  /** The loop of `Any(cs + rest)` past `cs` is the loop of `Any(rest)`. */
  lemma {:induction false} AnyShift<R>(cs: seq<Schema>, rest: seq<Schema>, j: nat, v: Value, log: Log,
                                       p: Log -> R, f: Log -> R)
    requires j <= |rest|
    ensures RunAny(cs + rest, |cs| + j, v, log, p, f) == RunAny(rest, j, v, log, p, f)
    decreases |rest| - j
  {
    if j < |rest| {
      assert (cs + rest)[|cs| + j] == rest[j];
      var kl := (l: Log) => RunAny(cs + rest, |cs| + j + 1, v, l, p, f);
      var kr := (l: Log) => RunAny(rest, j + 1, v, l, p, f);
      RunMatchesAccepts(rest[j], v, log, p, kl);
      RunMatchesAccepts(rest[j], v, log, p, kr);
      if !Accepts(rest[j], v) {
        AnyShift(cs, rest, j + 1, v, log + Trace(rest[j], v), p, f);
      }
    }
  }

  /** Once a disjunction accepts, schemas appended after it are never run. */
  lemma AnyStopsAtFirstAcceptance<R>(cs: seq<Schema>, rest: seq<Schema>, v: Value, log: Log,
                                     p: Log -> R, f: Log -> R)
    requires Accepts(Any(cs), v)
    ensures Run(Any(cs + rest), v, log, p, f) == p(log + Trace(Any(cs), v))
  {
    AnySequences(cs, rest, v, log, p, f);
    RunMatchesAccepts(Any(cs), v, log, p, (l: Log) => Run(Any(rest), v, l, p, f));
  }

  /** A disjunction whose first schema rejects backtracks: the remaining
      schemas run on the same value, after the calls the first one made. */
  lemma AnyBacktracks<R>(c: Schema, rest: seq<Schema>, v: Value, log: Log, p: Log -> R, f: Log -> R)
    requires !Accepts(c, v)
    ensures Run(Any([c] + rest), v, log, p, f) == Run(Any(rest), v, log + Trace(c, v), p, f)
  {
    var k := (l: Log) => Run(Any(rest), v, l, p, f);
    AnySequences([c], rest, v, log, p, f);
    RunMatchesAccepts(Any([c]), v, log, p, k);
    assert Verdicts([c], v) == [false];
    assert ScanEnd([false], 0, false) == 1;
    assert TraceRange([c], 0, 1, v) == Trace(c, v) + [];
    assert Trace(c, v) + [] == Trace(c, v);
  }

  /** A conjunction runs its schemas in index order and stops at the first
      rejecting one: when `cs[i]` is the first to reject, the run fails after
      the calls of `cs[0..i+1]` and of nothing after. */
  lemma EveryStopsAt<R>(cs: seq<Schema>, i: nat, v: Value, log: Log, p: Log -> R, f: Log -> R)
    requires i < |cs| && !Accepts(cs[i], v)
    requires forall j | 0 <= j < i :: Accepts(cs[j], v)
    ensures Run(Every(cs), v, log, p, f) == f(log + TraceRange(cs, 0, i + 1, v))
  {
    RunMatchesAccepts(Every(cs), v, log, p, f);
    var bs := Verdicts(cs, v);
    assert bs[i] == false;
  }

  /** A disjunction stops at the first accepting schema: when `cs[i]` is the
      first to accept, the run passes after the calls of `cs[0..i+1]`. */
  lemma AnyStopsAt<R>(cs: seq<Schema>, i: nat, v: Value, log: Log, p: Log -> R, f: Log -> R)
    requires i < |cs| && Accepts(cs[i], v)
    requires forall j | 0 <= j < i :: !Accepts(cs[j], v)
    ensures Run(Any(cs), v, log, p, f) == p(log + TraceRange(cs, 0, i + 1, v))
  {
    RunMatchesAccepts(Any(cs), v, log, p, f);
    var bs := Verdicts(cs, v);
    assert bs[i] == true;
  }

  /** `Array` never runs its item schema on an empty array: the run makes
      only the type check's call and the length schema's calls. */
  lemma ArrayEmptySkipsItems<R>(item: Schema, length: Schema, log: Log, p: Log -> R, f: Log -> R)
    ensures var t := log + [Called(IsOfType("array"), Arr([]))] + Trace(length, Num(0.0));
            Run(ArrayCheck(item, length), Arr([]), log, p, f) ==
            if Accepts(length, Num(0.0)) then p(t) else f(t)
  {
    var v := Arr([]);
    RunMatchesAccepts(ArrayCheck(item, length), v, log, p, f);
    var t := log + [Called(IsOfType("array"), v)] + Trace(length, Num(0.0));
    if Accepts(length, Num(0.0)) {
      assert ItemVerdicts(item, []) == [];
      assert TraceItems(item, [], 0, ScanEnd(ItemVerdicts(item, []), 0, true)) == [];
      assert log + Trace(ArrayCheck(item, length), v) == t + [];
    } else {
      assert log + Trace(ArrayCheck(item, length), v) == t;
    }
    assert t + [] == t;
  }

  /** `Array` checks items in ascending order and stops at the first bad one:
      no item after `vs[i]` is run. */
  lemma ArrayStopsAtFirstBadItem<R>(item: Schema, length: Schema, vs: seq<Value>, i: nat, log: Log,
                                    p: Log -> R, f: Log -> R)
    requires Accepts(length, Num(|vs| as real))
    requires i < |vs| && !Accepts(item, vs[i])
    requires forall j | 0 <= j < i :: Accepts(item, vs[j])
    ensures var t := log + [Called(IsOfType("array"), Arr(vs))] + Trace(length, Num(|vs| as real));
            Run(ArrayCheck(item, length), Arr(vs), log, p, f) == f(t + TraceItems(item, vs, 0, i + 1))
  {
    RunMatchesAccepts(ArrayCheck(item, length), Arr(vs), log, p, f);
    var bs := ItemVerdicts(item, vs);
    assert bs[i] == false;
    assert ScanEnd(bs, 0, true) == i + 1;
    var t := log + [Called(IsOfType("array"), Arr(vs))] + Trace(length, Num(|vs| as real));
    assert log + Trace(ArrayCheck(item, length), Arr(vs)) == t + TraceItems(item, vs, 0, i + 1);
  }

  /** A tuple whose arity differs from the value's length rejects after the
      type check alone, without running any item schema. */
  lemma TupleArityMismatch<R>(items: seq<Schema>, vs: seq<Value>, log: Log, p: Log -> R, f: Log -> R)
    requires |items| != |vs|
    ensures !Accepts(TupleCheck(items), Arr(vs))
    ensures Run(TupleCheck(items), Arr(vs), log, p, f) == f(log + [Called(IsOfType("array"), Arr(vs))])
  {
  }
}
