/**
 * JSON-like values as Python's `json` module produces them (dicts, lists,
 * strings, integers, booleans and None), with Python's truthiness and
 * `dict.get(key, default)`.
 */
module JsonValue {

  import opened Strings

  datatype Json =
    | JNull
    | JBool(b: bool)
    | JNum(n: int)
    | JStr(s: string)
    | JArr(items: seq<Json>)
    | JObj(fields: map<string, Json>)

  /** Python's `bool(v)`: None, False, 0, "", [] and {} are false. */
  predicate Truthy(v: Json)
  {
    match v
    case JNull => false
    case JBool(b) => b
    case JNum(n) => n != 0
    case JStr(s) => |s| > 0
    case JArr(items) => |items| > 0
    case JObj(fields) => |fields| > 0
  }

  /** Python's `d.get(key, default)`. */
  function Get(d: map<string, Json>, key: string, default: Json): (r: Json)
    ensures key in d ==> r == d[key]
    ensures key !in d ==> r == default
  {
    if key in d then d[key] else default
  }

  /**
   * Python's `str()` of a JSON value, as an f-string shows it: scalars as
   * Python prints them, lists and dicts rendered by `show`.
   */
  function PyStr(v: Json, show: Json -> string): (r: string)
    ensures v.JStr? ==> r == v.s
    ensures v.JNull? ==> r == "None"
  {
    match v
    case JNull => "None"
    case JBool(b) => if b then "True" else "False"
    case JNum(n) => IntToString(n)
    case JStr(s) => s
    case _ => show(v)
  }
}
