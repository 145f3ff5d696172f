/** JSON values as they cross the HTTP boundary: what Go's `encoding/json`
    writes and what the client's `res.json()` reads. JavaScript numbers are
    modelled as reals, so that "is an integer" is a real check. */
module Json {
  import opened Wrappers

  datatype Json =
    | JNull
    | JBool(b: bool)
    | JNum(n: real)
    | JStr(s: string)
    | JArr(items: seq<Json>)
    | JObj(fields: map<string, Json>)

  /** `Number.isInteger`, which `z.number().int()` applies. */
  predicate IsInteger(r: real) { r.Floor as real == r }

  /** JavaScript truthiness of a defined value. */
  predicate Truthy(j: Json) {
    match j
    case JNull => false
    case JBool(b) => b
    case JNum(n) => n != 0.0
    case JStr(s) => s != ""
    case _ => true
  }

  /** Reading `j.key`: `None` stands for `undefined`. */
  function Field(j: Json, key: string): Option<Json> {
    if j.JObj? && key in j.fields then Some(j.fields[key]) else None
  }
}
