/** The JavaScript values a schema is run against, and the few JavaScript
    operations on them that both engines rely on: `typeof`, truthiness,
    own properties, property access and the coercion of a value to a
    property key. */
module JsValues {
  import opened Wrappers

  /** A JSON-like JavaScript value. An object is the map of its own
      properties; arrays and strings are sequences. */
  datatype Value =
    | Undefined
    | Null
    | Bool(b: bool)
    | Num(n: real)
    | Str(s: string)
    | Arr(items: seq<Value>)
    | Obj(props: map<string, Value>)

  /** JavaScript's `typeof` operator. */
  function JsTypeof(v: Value): string {
    match v
    case Undefined => "undefined"
    case Null => "object"
    case Bool(_) => "boolean"
    case Num(_) => "number"
    case Str(_) => "string"
    case Arr(_) => "object"
    case Obj(_) => "object"
  }

  /** JavaScript truthiness (NaN is not modelled). */
  predicate Truthy(v: Value) {
    match v
    case Undefined => false
    case Null => false
    case Bool(b) => b
    case Num(n) => n != 0.0
    case Str(s) => s != ""
    case Arr(_) => true
    case Obj(_) => true
  }

  /** `typeOf`: `typeof`, refined so that null and arrays get tags of their
      own; "object" is then left for plain objects only. */
  function TypeOf(v: Value): (t: string)
    ensures t == "null" <==> v.Null?
    ensures t == "array" <==> v.Arr?
    ensures t == "object" <==> v.Obj?
    ensures t == "undefined" <==> v.Undefined?
    ensures t != JsTypeof(v) ==> JsTypeof(v) == "object"
  {
    var s := JsTypeof(v);
    if s == "object" then
      if Truthy(v) then
        if v.Arr? then "array" else s
      else
        "null"
    else
      s
  }

  /** `value % 1 == 0` for a finite number. */
  predicate IsWhole(n: real) {
    n.Floor as real == n
  }

  function DigitChar(d: int): char
    requires 0 <= d < 10
  {
    "0123456789"[d]
  }

  /** Decimal notation of a natural number, as `String(n)` writes it. */
  function DecimalNat(n: nat): (s: string)
    ensures |s| > 0
    ensures forall i | 0 <= i < |s| :: '0' <= s[i] <= '9'
  {
    if n < 10 then [DigitChar(n)] else DecimalNat(n / 10) + [DigitChar(n % 10)]
  }

  /** The first `fuel` decimal digits of a fraction in [0, 1). */
  function FractionDigits(f: real, fuel: nat): string
    requires 0.0 <= f < 1.0
    decreases fuel
  {
    if fuel == 0 || f == 0.0 then ""
    else
      var d := (f * 10.0).Floor;
      [DigitChar(d)] + FractionDigits(f * 10.0 - d as real, fuel - 1)
  }

  /** `String(n)` for a number: whole numbers in plain decimal, other
      numbers with their fraction cut after 20 digits. */
  function NumberKey(n: real): string
    decreases if n < 0.0 then 1 else 0
  {
    if n < 0.0 then "-" + NumberKey(-n)
    else if IsWhole(n) then DecimalNat(n.Floor)
    else DecimalNat(n.Floor) + "." + FractionDigits(n - n.Floor as real, 20)
  }

  /** The property key a value is coerced to when it is used as `o[value]`
      or `o.hasOwnProperty(value)`: `String(value)`. */
  function PropertyKey(v: Value): string
    decreases v, 1
  {
    match v
    case Undefined => "undefined"
    case Null => "null"
    case Bool(b) => if b then "true" else "false"
    case Num(n) => NumberKey(n)
    case Str(s) => s
    case Arr(items) => JoinKeys(items)
    case Obj(_) => "[object Object]"
  }

  /** `Array.prototype.join(",")`: null and undefined elements print as "". */
  function JoinKeys(items: seq<Value>): string
    decreases items, 0
  {
    if |items| == 0 then ""
    else
      var head := if items[0].Undefined? || items[0].Null? then "" else PropertyKey(items[0]);
      if |items| == 1 then head else head + "," + JoinKeys(items[1..])
  }

  /** The keys a `for ... in` loop filtered by `hasOwnProperty` visits. */
  function OwnKeys(v: Value): set<string> {
    match v
    case Obj(m) => m.Keys
    case Arr(items) => set i | 0 <= i < |items| :: DecimalNat(i)
    case Str(s) => set i | 0 <= i < |s| :: DecimalNat(i)
    case _ => {}
  }

  /** `v.hasOwnProperty(k)`: the enumerable own keys, plus the
      non-enumerable `length` of arrays and strings. */
  predicate HasOwn(v: Value, k: string) {
    k in OwnKeys(v) || (k == "length" && (v.Arr? || v.Str?))
  }

  /** The index `i` in `[from, n)` whose decimal form is `k`, if any. */
  function IndexOfKey(k: string, n: nat, from: nat): (r: Option<nat>)
    ensures r.Some? ==> from <= r.value < n && DecimalNat(r.value) == k
    ensures r.None? ==> forall i | from <= i < n :: DecimalNat(i) != k
    decreases n - from
  {
    if from >= n then None
    else if DecimalNat(from) == k then Some(from)
    else IndexOfKey(k, n, from + 1)
  }

  /** `v[k]` for an own property; every other read gives undefined. */
  function Get(v: Value, k: string): Value {
    match v
    case Obj(m) => if k in m then m[k] else Undefined
    case Arr(items) =>
      if k == "length" then Num(|items| as real)
      else (match IndexOfKey(k, |items|, 0)
        case Some(i) => items[i]
        case None => Undefined)
    case Str(s) =>
      if k == "length" then Num(|s| as real)
      else (match IndexOfKey(k, |s|, 0)
        case Some(i) => Str([s[i]])
        case None => Undefined)
    case _ => Undefined
  }

  /** The forIn / delete / keys steps of the closed-object check: collect
      the value's own keys into a table, delete every declared property
      name, and list what is left. */
  method UndeclaredKeys(value: Value, required: seq<string>, optional: seq<string>)
    returns (rest: seq<string>)
    ensures forall k :: k in rest <==> k in OwnKeys(value) && k !in required && k !in optional
    ensures |rest| == 0 <==> OwnKeys(value) <= (set k | k in required) + (set k | k in optional)
  {
    var table := CopyKeys(OwnKeys(value));
    table := DeleteNames(table, required);
    table := DeleteNames(table, optional);
    rest := KeyList(table);
    LeftOverKeys(OwnKeys(value), required, optional, table);
  }

  /** The forIn step: every own key is entered into a fresh table. */
  method CopyKeys(keys: set<string>) returns (table: set<string>)
    ensures table == keys
  {
    table := {};
    var todo := keys;
    while todo != {}
      invariant table + todo == keys
      decreases |todo|
    {
      var k :| k in todo;
      table := table + {k};
      todo := todo - {k};
    }
  }

  /** The delete step: each listed name is removed from the table. */
  method DeleteNames(table: set<string>, names: seq<string>) returns (left: set<string>)
    ensures left == table - Elements(names)
  {
    left := table;
    for i := 0 to |names|
      invariant left == table - Elements(names[..i])
    {
      ElementsExtend(names, i);
      left := left - {names[i]};
    }
    assert names[..|names|] == names;
  }

  /** What the deletions leave is the undeclared keys; it is empty exactly
      when every key is declared. */
  lemma LeftOverKeys(keys: set<string>, required: seq<string>, optional: seq<string>, table: set<string>)
    requires table == keys - Elements(required) - Elements(optional)
    ensures forall k :: k in table <==> k in keys && k !in required && k !in optional
    ensures table == {} <==> keys <= (set k | k in required) + (set k | k in optional)
  {
    if table != {} {
      var k :| k in table;
      assert k !in (set k | k in required) + (set k | k in optional);
    }
  }

  /** The set of names listed in a sequence. */
  function Elements(names: seq<string>): (e: set<string>)
    ensures forall k :: k in e <==> k in names
  {
    set k | k in names
  }

  lemma ElementsExtend(names: seq<string>, i: nat)
    requires i < |names|
    ensures Elements(names[..i + 1]) == Elements(names[..i]) + {names[i]}
  {
    assert names[..i + 1] == names[..i] + [names[i]];
  }

  /** `keys(o)`: the keys of a table, pushed one by one onto an array. */
  method KeyList(o: set<string>) returns (ks: seq<string>)
    ensures forall k :: k in ks <==> k in o
    ensures |ks| == |o|
  {
    ks := [];
    var todo := o;
    while todo != {}
      invariant todo <= o
      invariant forall k :: k in ks <==> k in o && k !in todo
      invariant |ks| + |todo| == |o|
      decreases |todo|
    {
      var k :| k in todo;
      ks := ks + [k];
      todo := todo - {k};
    }
  }
}
