/** JSON values as they arrive in request bodies and query strings, and leave in responses. */
module Json {

  datatype Json =
    | JNull
    | JBool(b: bool)
    | JNumber(n: real)
    | JString(s: string)
    | JArray(items: seq<Json>)
    | JObject(fields: map<string, Json>)

  /** A JSON object: a request body, a parsed query string or a response record. */
  type Object = map<string, Json>

  /**
   * The rest object of `const { key, ...rest } = obj`: every member except `key`,
   * each with its value unchanged.
   */
  function Omit(obj: Object, key: string): (rest: Object)
    ensures key !in rest
    ensures forall k :: k in rest <==> k in obj && k != key
    ensures forall k :: k in rest ==> rest[k] == obj[k]
  {
    obj - {key}
  }
}
