/** JSON values as the page scripts send them and the Flask handlers read them. */
module Json {
  datatype Json = JNull | JStr(str: string) | JInt(num: int) | JBool(flag: bool)

  /** A decoded JSON object (`request.json`, the body of a fetch). */
  type Object = map<string, Json>

  /** Python's `not value` and JavaScript's `!value` on these values agree. */
  predicate Falsy(j: Json) {
    j == JNull || j == JStr("") || j == JInt(0) || j == JBool(false)
  }

  /** `dict.get(key, default)`. */
  function Get(o: Object, key: string, default: Json): Json {
    if key in o then o[key] else default
  }
}
