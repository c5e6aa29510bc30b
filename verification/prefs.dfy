/** The key-value preference store the repositories write JSON text into.
    A stored value is either text the JSON parser rejects or the document
    it parses to. */
module Prefs {
  import opened Wrappers
  import Json

  datatype Stored = Malformed | Document(doc: Json.Json)

  /** `getString(key, null)`. */
  function Get(store: map<string, Stored>, key: string): (r: Option<Stored>)
    ensures r.Some? <==> key in store
    ensures r.Some? ==> r.value == store[key]
  {
    if key in store then Some(store[key]) else None
  }
}
