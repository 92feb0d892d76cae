/** `s.Object` of jsoSchema.js as written, set against the object loop
    `EarlierEngine.Run` uses.

    `object_schema_loop` treats its two property lists as arrays of names
    (`[0]`, `slice(1)`, `.length > 0`), but `s.Object` hands it the spec's
    property maps. Two readings of the code follow: the one that runs (maps)
    and the one the loop is written for (name lists). Each departs from
    the intended behaviour on a concrete value. */
module EarlierObjectAsWritten {
  import opened Wrappers
  import opened JsValues
  import opened Protocol
  import opened EarlierEngine

  /** What `object_schema_loop` is handed for the required or the
      optional properties: an array of names (the form the loop is written
      for, paired here with each name's schema) or a property map (the form
      `s.Object` passes). */
  datatype Properties =
    | NameList(items: seq<(string, Schema)>)
    | PropertyMap(entries: seq<(string, Schema)>)

  /** `properties.length > 0`. A plain object's `length` reads undefined, or
      a schema when one is declared under that name, and neither compares
      greater than 0. */
  predicate LengthPositive(ps: Properties) {
    ps.NameList? && |ps.items| > 0
  }

  /** The keys a `for ... in` loop visits on an array: its indices. */
  function IndexKeys(ps: seq<(string, Schema)>): set<string> {
    set i | 0 <= i < |ps| :: DecimalNat(i)
  }

  /** The keys `for ... in` visits: the indices of an array, the declared
      names of a map. */
  function ForInKeys(ps: Properties): set<string> {
    match ps
    case NameList(items) => IndexKeys(items)
    case PropertyMap(entries) => set i | 0 <= i < |entries| :: entries[i].0
  }

  function PropertiesSize(ps: Properties): nat {
    if ps.NameList? then SizeProps(ps.items) else 0
  }

  /** `object_schema_loop` with `check_one_required_property`,
      `check_one_optional_property` and `check_extra_properties`, on
      whatever it is handed. Only a name list reaches `[0]` and `slice(1)`. */
  function ObjectSchemaLoop<R>(spec: ObjectSpec, required: Properties, optional: Properties, v: Value,
                               log: Log, p: Log -> R, f: Log -> R): R
    decreases PropertiesSize(required) + PropertiesSize(optional)
  {
    if LengthPositive(required) then
      var name := required.items[0].0;
      if Missing(v, name) then f(log)
      else
        SizePropsSlice(required.items);
        Run(required.items[0].1, Get(v, name), log,
            (l: Log) => ObjectSchemaLoop(spec, NameList(required.items[1..]), optional, v, l, p, f), f)
    else if LengthPositive(optional) then
      SizePropsSlice(optional.items);
      Run(optional.items[0].1, Get(v, optional.items[0].0), log,
          (l: Log) => ObjectSchemaLoop(spec, required, NameList(optional.items[1..]), v, l, p, f), f)
    else if spec.allowOther == Some(false) then
      if OwnKeys(v) <= ForInKeys(required) + ForInKeys(optional) then p(log) else f(log)
    else p(log)
  }

  /** `s.Object(spec)` as called: the loop is handed the spec's maps. */
  function ObjectAsCalled<R>(spec: ObjectSpec, v: Value, log: Log, p: Log -> R, f: Log -> R): R {
    ObjectSchemaLoop(spec, PropertyMap(spec.required), PropertyMap(spec.optional), v, log, p, f)
  }

  /** As called, no property schema is ever run and no predicate is
      called: the closed-object check alone decides, and an open spec
      passes every value. */
  lemma ObjectAsCalledIgnoresProperties<R>(spec: ObjectSpec, v: Value, log: Log, p: Log -> R, f: Log -> R)
    ensures ObjectAsCalled(spec, v, log, p, f) ==
            if spec.allowOther == Some(false) && !NoExtraKeys(spec, v) then f(log) else p(log)
  {
    assert ForInKeys(PropertyMap(spec.required)) + ForInKeys(PropertyMap(spec.optional)) == DeclaredNames(spec);
  }

  /** A string-typed required `name`: as called, `{}` is accepted; the
      intended loop rejects it, since `name` is missing. */
  lemma RequiredPropertyNeverChecked()
    ensures var spec := ObjectSpec([("name", Condition((x: Value) => TypeOf(x) == "string"))], [], None);
            var empty := Obj(map[]);
            && ObjectAsCalled(spec, empty, [], (l: Log) => true, (l: Log) => false)
            && !Run(ObjectCheck(spec), empty, [], (l: Log) => true, (l: Log) => false)
  {
    var spec := ObjectSpec([("name", Condition((x: Value) => TypeOf(x) == "string"))], [], None);
    var empty := Obj(map[]);
    assert Missing(empty, "name");
  }

  /** On name lists, a closed object rejects its own declared property:
      `{name: "x"}` against a spec declaring only `name`. The intended loop
      accepts it. */
  lemma ClosedObjectRejectsDeclaredKey()
    ensures var spec := ObjectSpec([("name", Pass)], [], Some(false));
            var v := Obj(map["name" := Str("x")]);
            && !ObjectSchemaLoop(spec, NameList(spec.required), NameList(spec.optional), v, [], (l: Log) => true, (l: Log) => false)
            && Run(ObjectCheck(spec), v, [], (l: Log) => true, (l: Log) => false)
  {
    ListReadingRejects();
    IntendedLoopAccepts();
  }

  lemma ListReadingRejects()
    ensures var spec := ObjectSpec([("name", Pass)], [], Some(false));
            !ObjectSchemaLoop(spec, NameList(spec.required), NameList(spec.optional), Obj(map["name" := Str("x")]), [],
                              (l: Log) => true, (l: Log) => false)
  {
    var spec := ObjectSpec([("name", Pass)], [], Some(false));
    var v := Obj(map["name" := Str("x")]);
    assert !Missing(v, "name");
    assert spec.required[1..] == [];
    assert "name" in OwnKeys(v);
    assert IndexKeys([]) == {};
  }

  lemma IntendedLoopAccepts()
    ensures Run(ObjectCheck(ObjectSpec([("name", Pass)], [], Some(false))), Obj(map["name" := Str("x")]), [],
                (l: Log) => true, (l: Log) => false)
  {
    var spec := ObjectSpec([("name", Pass)], [], Some(false));
    var v := Obj(map["name" := Str("x")]);
    assert !Missing(v, "name");
    assert spec.required[0].0 == "name";
    assert "name" in DeclaredNames(spec);
    assert OwnKeys(v) == {"name"};
    RunMatchesAccepts(ObjectCheck(spec), v, [], (l: Log) => true, (l: Log) => false);
  }
}
