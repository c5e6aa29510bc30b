/** The org.json values the app reads and writes, and the lenient `opt…`
    accessors it uses on them.  Turning text into a value is the parser's job
    and is not part of this model: operations that parse text receive the
    parser as a function `parse: string -> Option<Json>`. */
module Json {
  import opened Wrappers
  import KotlinText

  datatype Json =
    | JString(str: string)
    | JNumber(num: int)
    | JBool(flag: bool)
    | JNull
    | JArray(items: seq<Json>)
    | JObject(fields: map<string, Json>)

  /** `JSONObject.optString(key)`: the string itself, any other scalar printed,
      "" when the key is absent.  A simplification: org.json prints a nested
      array or object as its JSON text, while here it prints as a fixed
      non-blank marker.  The values the app writes hold strings and numbers
      only, so its own stored data never reaches this case. */
  function OptString(obj: map<string, Json>, key: string): (r: string)
    ensures key !in obj ==> r == ""
    ensures key in obj && obj[key].JString? ==> r == obj[key].str
    ensures key in obj && !obj[key].JString? ==> !KotlinText.IsBlank(r)
  {
    if key !in obj then ""
    else if obj[key].JString? then obj[key].str
    else
      var text := match obj[key]
        case JNumber(n) => KotlinText.IntToString(n)
        case JBool(b) => if b then "true" else "false"
        case JNull => "null"
        case JArray(_) => "[...]"
        case JObject(_) => "{...}";
      assert !KotlinText.IsWhitespace(text[0]);
      text
  }

  /** `JSONObject.optLong(key)`: the number stored under `key`, otherwise 0.
      A simplification: org.json also converts a numeric string such as
      "123"; here any string gives 0.  The timestamps the app writes are
      always numbers. */
  function OptLong(obj: map<string, Json>, key: string): (r: int)
    ensures key in obj && obj[key].JNumber? ==> r == obj[key].num
    ensures (key !in obj || !obj[key].JNumber?) ==> r == 0
  {
    if key in obj && obj[key].JNumber? then obj[key].num else 0
  }

  /** `JSONObject.optJSONArray(key)`. */
  function OptArray(obj: map<string, Json>, key: string): (r: Option<seq<Json>>)
    ensures r.Some? <==> key in obj && obj[key].JArray?
    ensures r.Some? ==> r.value == obj[key].items
  {
    if key in obj && obj[key].JArray? then Some(obj[key].items) else None
  }

  /** `JSONArray.optJSONObject(i)` on an element. */
  function OptObject(item: Json): (r: Option<map<string, Json>>)
    ensures r.Some? <==> item.JObject?
    ensures r.Some? ==> r.value == item.fields
  {
    if item.JObject? then Some(item.fields) else None
  }
}
