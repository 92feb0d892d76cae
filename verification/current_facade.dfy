/** `violatesSchema` and `validate` of src/jsoSchema.js: run a schema with
    callbacks that record the outcome in local flags. */
module CurrentFacade {
  import opened Wrappers
  import opened JsValues
  import opened Protocol
  import opened CurrentEngine

  /** The error object: the offending value and the schema it was run
      against (the failure message is not modelled). */
  datatype Violation = Violation(value: Value, schema: Schema)

  /** `violatesSchema(value, schema)`: false (here `None`) when the schema
      accepts the value, otherwise the error object. */
  method ViolatesSchema(value: Value, schema: Schema) returns (r: Option<Violation>)
    ensures r.None? <==> Accepts(schema, value)
    ensures r.Some? ==> r.value == Violation(value, schema)
  {
    var error: Option<Violation> := None;
    var ok := false;
    // The run returns which callback it called: the pass callback sets
    // `ok`, the fail callback sets `error`.
    var passed := Run(schema, value, [], (l: Log) => true, (l: Log) => false);
    RunMatchesAccepts(schema, value, [], (l: Log) => true, (l: Log) => false);
    if passed {
      ok := true;
    } else {
      error := Some(Violation(value, schema));
    }
    r := if ok then None else error;
  }

  /** `validate(value, schema)`: true exactly when the schema accepts. */
  method Validate(value: Value, schema: Schema) returns (ok: bool)
    ensures ok <==> Accepts(schema, value)
  {
    var violation := ViolatesSchema(value, schema);
    ok := violation.None?;
  }
}
