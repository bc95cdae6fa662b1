/**
  JSON values as the quiz solver sees them after `JSON.parse`, and JavaScript's
  truthiness test on an optional value (a missing property reads as `undefined`).
*/
module JsValues {
  import opened Wrappers

  /** A parsed JSON value. Numbers are kept as integers. */
  datatype Json =
    | JNull
    | JBool(b: bool)
    | JNum(n: int)
    | JStr(s: string)
    | JArr(items: seq<Json>)
    | JObj(fields: map<string, Json>)

  /** JavaScript's `!!v`, where `None` stands for `undefined`. */
  predicate Truthy(v: Option<Json>)
  {
    match v
    case None => false
    case Some(JNull) => false
    case Some(JBool(b)) => b
    case Some(JNum(n)) => n != 0
    case Some(JStr(s)) => s != ""
    case Some(JArr(_)) => true
    case Some(JObj(_)) => true
  }

  /**
    The falsy values among what a property read can give: `undefined`, `null`,
    `false`, `0` and the empty string; every array and object is truthy.
  */
  lemma FalsyValues(v: Option<Json>)
    ensures !Truthy(v) <==> v in {None, Some(JNull), Some(JBool(false)), Some(JNum(0)), Some(JStr(""))}
  {
  }

  /**
    Property read `v[name]` on a value that is not `null`: only objects have own
    properties here. Inherited properties (an array's or a string's `length`,
    an object's `constructor` or `toString`) are not modelled; the flow and the
    route read only `correct`, `email`, `secret` and `url`, none of which any
    value inherits.
  */
  function Property(v: Json, name: string): (r: Option<Json>)
    requires !v.JNull?
    ensures r.Some? <==> v.JObj? && name in v.fields
    ensures r.Some? ==> r.value == v.fields[name]
  {
    match v
    case JObj(m) => if name in m then Some(m[name]) else None
    case _ => None
  }
}
