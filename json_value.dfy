/** The decoded JSON value `response.json()` hands back, and Python's view of it. */
module JsonValue {
  import opened Wrappers

  /** A decoded JSON document; numbers are kept as integers. */
  datatype Json =
    | JNull
    | JBool(b: bool)
    | JNumber(n: int)
    | JString(s: string)
    | JArray(items: seq<Json>)
    | JObject(fields: map<string, Json>)

  /** Python truthiness of the decoded value (`if not response`). */
  predicate Truthy(j: Json) {
    match j
    case JNull => false
    case JBool(b) => b
    case JNumber(n) => n != 0
    case JString(s) => s != ""
    case JArray(items) => items != []
    case JObject(fields) => fields != map[]
  }

  /**
   * `j[key]` for a string key: a lookup on a dict; on any other value Python raises
   * KeyError or TypeError, which the extractor catches (None here).
   */
  function Field(j: Json, key: string): (r: Option<Json>)
    ensures r.Some? <==> j.JObject? && key in j.fields
    ensures r.Some? ==> r.value == j.fields[key]
  {
    if j.JObject? && key in j.fields then Some(j.fields[key]) else None
  }

  /**
   * `j[0]`: the first item of a list or the first character of a str; a dict has no
   * key 0 (JSON keys are strings) and other values are not subscriptable.
   */
  function First(j: Json): (r: Option<Json>)
    ensures r.Some? <==> (j.JArray? && j.items != []) || (j.JString? && j.s != "")
    ensures j.JArray? && j.items != [] ==> r == Some(j.items[0])
    ensures j.JString? && j.s != "" ==> r == Some(JString([j.s[0]]))
  {
    match j
    case JArray(items) => if items != [] then Some(items[0]) else None
    case JString(s) => if s != "" then Some(JString([s[0]])) else None
    case _ => None
  }
}
