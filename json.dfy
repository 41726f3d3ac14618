/** Decoded JSON values, as the JWT libraries on both sides hand them over. */
module Json {
  import opened Wrappers

  /** One decoded JSON value. A JSON number is held as an integer: the claims of this
      system only ever carry whole numbers (user ids and Unix times). */
  datatype Value = Number(n: int) | Str(s: string) | Other

  /** A decoded JSON object. */
  type Object = map<string, Value>

  /** The integer under `key`, when the object has one there. */
  function NumberAt(obj: Object, key: string): (r: Option<int>)
    ensures r.Some? <==> key in obj && obj[key].Number?
    ensures r.Some? ==> obj[key] == Number(r.value)
  {
    if key in obj && obj[key].Number? then Some(obj[key].n) else None
  }
}
