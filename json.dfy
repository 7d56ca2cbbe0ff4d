/** JSON documents as Python's `json` module hands them over: objects
    become dicts, arrays lists, and so on. */
module JsonValues {

  datatype Json =
    | JNull
    | JBool(b: bool)
    | JInt(i: int)
    | JReal(r: real)
    | JString(s: string)
    | JArray(items: seq<Json>)
    | JObject(fields: map<string, Json>)

  /** `isinstance(v, int)`: Python's `bool` is a subclass of `int`. */
  predicate IsInt(v: Json) {
    v.JInt? || v.JBool?
  }

  /** `isinstance(v, (int, float))`, booleans included. */
  predicate IsNumber(v: Json) {
    IsInt(v) || v.JReal?
  }

  /** `d.get(k, default)` on a dict. */
  function Get(d: map<string, Json>, k: string, default: Json): (r: Json)
    ensures k in d ==> r == d[k]
    ensures k !in d ==> r == default
  {
    if k in d then d[k] else default
  }
}
