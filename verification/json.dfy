/** The abstract JSON tree the decoder reads, and the org.json accessors it uses:
    `isNull`, `getJSONObject`, `getJSONArray` and `JSONArray.getJSONObject`. */
module JsonTree {
  import opened Results

  /** A parsed JSON value. Objects map member names to values; a member written
      as `null` is kept, as `JNull`, and is distinct from an absent member. */
  datatype Json =
    | JNull
    | JBool(b: bool)
    | JNumber(n: int)
    | JString(s: string)
    | JArray(items: seq<Json>)
    | JObject(fields: JsonObject)

  type JsonObject = map<string, Json>

  /** `JSONObject.isNull(key)`: true when the member is absent or is JSON null. */
  predicate IsNull(o: JsonObject, key: string) {
    key !in o || o[key].JNull?
  }

  /** `JSONObject.getJSONObject(key)`: the member, which must be present and an object. */
  function GetJSONObject(o: JsonObject, key: string): (r: Result<JsonObject>)
    ensures r.Ok? <==> key in o && o[key].JObject?
    ensures r.Ok? ==> r.value == o[key].fields
    ensures key !in o ==> r == Err(Wrapped(KeyNotFound(key)))
    ensures key in o && !o[key].JObject? ==> r == Err(Wrapped(NotAJSONObject(key)))
  {
    if key !in o then Err(Wrapped(KeyNotFound(key)))
    else match o[key]
      case JObject(fields) => Ok(fields)
      case _ => Err(Wrapped(NotAJSONObject(key)))
  }

  /** `JSONObject.getJSONArray(key)`: the member, which must be present and an array. */
  function GetJSONArray(o: JsonObject, key: string): (r: Result<seq<Json>>)
    ensures r.Ok? <==> key in o && o[key].JArray?
    ensures r.Ok? ==> r.value == o[key].items
    ensures key !in o ==> r == Err(Wrapped(KeyNotFound(key)))
    ensures key in o && !o[key].JArray? ==> r == Err(Wrapped(NotAJSONArray(key)))
  {
    if key !in o then Err(Wrapped(KeyNotFound(key)))
    else match o[key]
      case JArray(items) => Ok(items)
      case _ => Err(Wrapped(NotAJSONArray(key)))
  }

  /** `JSONArray.getJSONObject(i)` for an index the caller's loop keeps in range. */
  function GetJSONObjectAt(items: seq<Json>, i: nat): (r: Result<JsonObject>)
    requires i < |items|
    ensures r.Ok? <==> items[i].JObject?
    ensures r.Ok? ==> r.value == items[i].fields
    ensures r.Err? ==> r.error == Wrapped(ElementNotAJSONObject(i))
  {
    match items[i]
    case JObject(fields) => Ok(fields)
    case _ => Err(Wrapped(ElementNotAJSONObject(i)))
  }
}
