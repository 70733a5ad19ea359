/** JSON documents as Python's `json` module holds them: integers and
    floats are distinct, and a float keeps its literal text since the bridge
    never computes with one. */
module JsonValue {
  import opened Wrappers

  datatype Json =
    | JNull
    | JBool(b: bool)
    | JInt(i: int)
    | JFloat(literal: string)
    | JString(s: string)
    | JArray(items: seq<Json>)
    | JObject(fields: map<string, Json>)

  /** Python's `value.get(key)` on a dictionary: `None` when the key is
      absent or when `value` is not a dictionary at all. */
  function Get(value: Json, key: string): (r: Option<Json>)
    ensures r.Some? <==> value.JObject? && key in value.fields
    ensures r.Some? ==> r.value == value.fields[key]
  {
    match value
    case JObject(fields) => if key in fields then Some(fields[key]) else None
    case _ => None
  }

  /** `isinstance(value.get(key), str)`: the string under `key`, if any. */
  function GetString(value: Json, key: string): (r: Option<string>)
    ensures r.Some? <==> Get(value, key).Some? && Get(value, key).value.JString?
    ensures r.Some? ==> Get(value, key).value == JString(r.value)
  {
    match Get(value, key)
    case Some(JString(s)) => Some(s)
    case _ => None
  }
}
