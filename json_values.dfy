/**
 * The JSON values the records carry, and the three Python dictionary idioms the code uses on
 * them: `d.get(k)`, `d.get(k, default)` and truthiness (`if d.get(k)`, `a or b`).
 */
module JsonValues {
  import opened Wrappers
  import Text

  /** A JSON scalar as `json.load` returns it (nested arrays and objects are not modelled). */
  datatype Json = JNull | JBool(b: bool) | JInt(i: int) | JStr(s: string)

  /** A JSON object, i.e. a Python `dict` with string keys. */
  type Record = map<string, Json>

  /** `d.get(key)`: `None` for a missing key. */
  function Get(d: Record, key: string): (v: Option<Json>)
    ensures v.Some? <==> key in d
    ensures v.Some? ==> v.value == d[key]
  {
    if key in d then Some(d[key]) else None
  }

  /** `d.get(key, default)`: the default only when the key is absent (a stored null stays null). */
  function GetOr(d: Record, key: string, default: Json): (v: Json)
    ensures key in d ==> v == d[key]
    ensures key !in d ==> v == default
  {
    if key in d then d[key] else default
  }

  /** Python truthiness of a `d.get(...)` result. */
  predicate Truthy(v: Option<Json>) {
    match v
    case None => false
    case Some(JNull) => false
    case Some(JBool(b)) => b
    case Some(JInt(i)) => i != 0
    case Some(JStr(s)) => s != ""
  }

  /** Python `str(value)` as an f-string renders it. */
  function Display(j: Json): string {
    match j
    case JNull => "None"
    case JBool(b) => if b then "True" else "False"
    case JInt(i) => Text.IntToString(i)
    case JStr(s) => s
  }
}
