/**
 * Values as `JSON.parse` returns them, for the code that inspects untyped
 * CLI and API payloads. Numbers are integers here (the fields read as
 * numbers are timestamps).
 */
module JsonValues {
  import opened Wrappers

  datatype Json =
    | JNull
    | JBool(b: bool)
    | JNumber(n: int)
    | JString(s: string)
    | JArray(items: seq<Json>)
    | JObject(fields: seq<(string, Json)>)

  /**
   * Reading property `name` of a parsed object: the last duplicate key wins,
   * as in `JSON.parse`; a missing property is `undefined` (None). Other
   * values have none of the properties the source reads.
   */
  function Get(v: Json, name: string): (r: Option<Json>)
    ensures r.Some? ==> v.JObject? && (name, r.value) in v.fields
    ensures v.JObject? && r.None? ==> forall i :: 0 <= i < |v.fields| ==> v.fields[i].0 != name
  {
    if !v.JObject? then None
    else LastField(v.fields, name)
  }

  function LastField(fields: seq<(string, Json)>, name: string): (r: Option<Json>)
    ensures r.Some? ==> (name, r.value) in fields
    ensures r.None? ==> forall i :: 0 <= i < |fields| ==> fields[i].0 != name
  {
    if fields == [] then None
    else if fields[|fields| - 1].0 == name then Some(fields[|fields| - 1].1)
    else LastField(fields[..|fields| - 1], name)
  }

  /** `typeof v.name === "string"`: the property, when it is a string. */
  function GetString(v: Json, name: string): (r: Option<string>)
    ensures r.Some? <==> Get(v, name).Some? && Get(v, name).value.JString?
    ensures r.Some? ==> Get(v, name) == Some(JString(r.value))
  {
    match Get(v, name)
    case Some(JString(s)) => Some(s)
    case _ => None
  }

  /** `Array.isArray(v.name)`: the property's items, when it is an array. */
  function GetArray(v: Json, name: string): (r: Option<seq<Json>>)
    ensures r.Some? <==> Get(v, name).Some? && Get(v, name).value.JArray?
    ensures r.Some? ==> Get(v, name) == Some(JArray(r.value))
  {
    match Get(v, name)
    case Some(JArray(items)) => Some(items)
    case _ => None
  }
}
