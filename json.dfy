/**
 * The slice of JavaScript's JSON values and property access that the
 * response-parsing pipeline relies on.  `JSON.parse` itself is not modelled:
 * every operation that calls it takes it as a parameter of type `Parser`.
 */
module Json {
  import opened Wrappers

  /** A value produced by `JSON.parse`. An object is a map from key to value
      (JSON.parse keeps the last of duplicate keys, and key order is not kept). */
  datatype JsonValue =
    | JNull
    | JBool(b: bool)
    | JNumber(n: real)
    | JString(s: string)
    | JArray(items: seq<JsonValue>)
    | JObject(members: JsObject)

  /** A plain JavaScript object with JSON values in it. */
  type JsObject = map<string, JsonValue>

  /** JavaScript truthiness: null, false, 0 and "" are falsy; every array and
      every object (even an empty one) is truthy. JSON has no NaN. */
  predicate Truthy(v: JsonValue)
  {
    match v
    case JNull => false
    case JBool(b) => b
    case JNumber(n) => n != 0.0
    case JString(s) => s != ""
    case JArray(_) => true
    case JObject(_) => true
  }

  /** `v.key` on a value that is not null: an object's own member, and `undefined`
      (None) otherwise. The keys the pipeline reads (`rejection`, `step1`, ...)
      are not properties of arrays, strings, numbers or booleans. */
  function Member(v: JsonValue, key: string): Option<JsonValue>
  {
    if v.JObject? && key in v.members then Some(v.members[key]) else None
  }

  /** `!!v.key`: an absent member reads as `undefined`, which is falsy. */
  predicate TruthyMember(v: JsonValue, key: string)
  {
    Member(v, key).Some? && Truthy(Member(v, key).value)
  }

  /** What one call of `JSON.parse` does: return a value or throw a SyntaxError. */
  datatype ParseOutcome = Parsed(value: JsonValue) | SyntaxError(message: string)

  /** `JSON.parse`, supplied by the caller. */
  type Parser = string -> ParseOutcome
}
