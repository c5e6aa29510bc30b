/** The per-poem chat history store (`ChatRepository`). */
module ChatStore {
  import opened Wrappers
  import KotlinText
  import Json
  import Seqs
  import Prefs
  import opened ChatMessages

  /** `keyFor`: "chat_history_" followed by the poem id in decimal. */
  function Key(poemId: int): (k: string)
    ensures |k| > 13 && k[..13] == "chat_history_"
  {
    "chat_history_" + KotlinText.IntToString(poemId)
  }

  /** Different poems never share a key. */
  lemma KeyInjective(a: int, b: int)
    ensures Key(a) == Key(b) <==> a == b
  {
    if Key(a) == Key(b) {
      assert Key(a)[13..] == KotlinText.IntToString(a);
      assert Key(b)[13..] == KotlinText.IntToString(b);
      KotlinText.IntToStringInjective(a, b);
    }
  }

  /** How `saveHistory` writes a role. */
  function RoleName(r: Role): string {
    if r == User then "user" else "assistant"
  }

  /** How `loadHistory` reads a role back: "user" is the user, any other
      text the assistant. */
  function RoleOf(s: string): Role {
    if s == "user" then User else Assistant
  }

  /** Reading a written role gives it back; only the text "user" reads as the user. */
  lemma RoleRoundTrip(r: Role, s: string)
    ensures RoleOf(RoleName(r)) == r
    ensures RoleOf(s) == User <==> s == "user"
  {
    assert "assistant" != "user" by { assert "assistant"[0] != "user"[0]; }
  }

  /** The object `saveHistory` writes for one message. */
  function EncodeMessage(m: ChatMessage): Json.Json {
    Json.JObject(map[
      "id" := Json.JString(m.id),
      "role" := Json.JString(RoleName(m.role)),
      "content" := Json.JString(m.content),
      "timestamp" := Json.JNumber(m.timestamp)])
  }

  /** The array `saveHistory` writes. */
  function Encode(list: seq<ChatMessage>): Json.Json {
    Json.JArray(seq(|list|, i requires 0 <= i < |list| => EncodeMessage(list[i])))
  }

  /** The message `loadHistory` reads from one object. */
  function DecodeMessage(fields: map<string, Json.Json>): ChatMessage {
    ChatMessage(
      Json.OptString(fields, "id"),
      RoleOf(Json.OptString(fields, "role")),
      Json.OptString(fields, "content"),
      Json.OptLong(fields, "timestamp"))
  }

  /** One element of the stored array as a message, if it is an object. */
  function DecodeItem(item: Json.Json): (r: Option<ChatMessage>)
    ensures r.Some? <==> item.JObject?
  {
    if item.JObject? then Some(DecodeMessage(item.fields)) else None
  }

  /** Every element of the stored array is an object. */
  predicate AllObjects(items: seq<Json.Json>) {
    forall k :: 0 <= k < |items| ==> items[k].JObject?
  }

  /** What `loadHistory` returns: nothing when the key is missing, the text
      does not parse as an array or some element is not an object
      (`getJSONObject` throws and the whole load fails); otherwise one message
      per element, in order. */
  function Decode(stored: Option<Prefs.Stored>): seq<ChatMessage> {
    if stored.Some? && stored.value.Document? && stored.value.doc.JArray? then
      var items := stored.value.doc.items;
      if AllObjects(items) then Seqs.FilterMap(items, DecodeItem) else []
    else []
  }

  /** The state of the load loop before element `i`: every element so far
      is an object, and `out` holds their messages. */
  ghost predicate Loading(arr: seq<Json.Json>, i: nat, out: seq<ChatMessage>) {
    i <= |arr| && out == Seqs.FilterMap(arr[..i], DecodeItem)
    && forall k :: 0 <= k < i ==> arr[k].JObject?
  }

  /** An object element adds its message. */
  lemma LoadingStep(arr: seq<Json.Json>, i: nat, out: seq<ChatMessage>)
    requires i < |arr| && arr[i].JObject? && Loading(arr, i, out)
    ensures Loading(arr, i + 1, out + [DecodeMessage(arr[i].fields)])
  {
    Seqs.FilterMapStep(arr, i, DecodeItem);
  }

  /** After the last element, `out` is the decoded array. */
  lemma LoadingDone(arr: seq<Json.Json>, out: seq<ChatMessage>)
    requires Loading(arr, |arr|, out)
    ensures AllObjects(arr) && out == Seqs.FilterMap(arr, DecodeItem)
  {
    assert arr[..|arr|] == arr;
  }

  /** The loop of `loadHistory` over the stored array: one message per
      element, or nothing as soon as an element is not an object. */
  method ReadArray(arr: seq<Json.Json>) returns (out: seq<ChatMessage>)
    ensures AllObjects(arr) ==> out == Seqs.FilterMap(arr, DecodeItem)
    ensures !AllObjects(arr) ==> out == []
  {
    out := [];
    for i := 0 to |arr|
      invariant Loading(arr, i, out)
    {
      if !arr[i].JObject? {
        return [];
      }
      var obj := arr[i].fields;
      var role := RoleOf(Json.OptString(obj, "role"));
      var m := ChatMessage(Json.OptString(obj, "id"), role, Json.OptString(obj, "content"), Json.OptLong(obj, "timestamp"));
      LoadingStep(arr, i, out);
      out := out + [m];
    }
    LoadingDone(arr, out);
  }

  class ChatRepository {
    var prefs: map<string, Prefs.Stored>

    constructor (initial: map<string, Prefs.Stored>)
      ensures prefs == initial
    {
      prefs := initial;
    }

    /** `loadHistory`. */
    method LoadHistory(poemId: int) returns (out: seq<ChatMessage>)
      ensures out == Decode(Prefs.Get(prefs, Key(poemId)))
    {
      var raw := Prefs.Get(prefs, Key(poemId));
      if raw.None? || raw.value.Malformed? || !raw.value.doc.JArray? {
        return [];
      }
      out := ReadArray(raw.value.doc.items);
    }

    /** `saveHistory`: writes the messages, in order, under the poem's key. */
    method SaveHistory(poemId: int, list: seq<ChatMessage>)
      modifies this
      ensures prefs == old(prefs)[Key(poemId) := Prefs.Document(Encode(list))]
    {
      var arr: seq<Json.Json> := [];
      for i := 0 to |list|
        invariant arr == Encode(list[..i]).items
      {
        arr := arr + [EncodeMessage(list[i])];
      }
      assert list[..|list|] == list;
      prefs := prefs[Key(poemId) := Prefs.Document(Json.JArray(arr))];
    }

    /** `deleteMessage`: loads the history, drops every message with that id
        and saves the rest. */
    method DeleteMessage(poemId: int, messageId: string)
      modifies this
      ensures prefs == old(prefs)[Key(poemId) := Prefs.Document(Encode(
        Seqs.Filter(Decode(Prefs.Get(old(prefs), Key(poemId))), (m: ChatMessage) => m.id != messageId)))]
    {
      var list := LoadHistory(poemId);
      var newList := Seqs.Filter(list, (m: ChatMessage) => m.id != messageId);
      SaveHistory(poemId, newList);
    }
  }

  /** One message reads back as itself. */
  lemma DecodeEncodeMessage(m: ChatMessage)
    ensures DecodeMessage(EncodeMessage(m).fields) == m
  {
    var fields := EncodeMessage(m).fields;
    assert Json.OptString(fields, "id") == m.id;
    assert Json.OptString(fields, "role") == RoleName(m.role);
    assert Json.OptString(fields, "content") == m.content;
    assert Json.OptLong(fields, "timestamp") == m.timestamp;
    RoleRoundTrip(m.role, "");
  }

  /** The saved array of a non-empty list: the array of all but its last
      message, then the last message's object. */
  lemma EncodeLast(list: seq<ChatMessage>)
    requires list != []
    ensures var items := Encode(list).items;
      items != [] && items[..|items| - 1] == Encode(list[..|list| - 1]).items
      && items[|items| - 1] == EncodeMessage(list[|list| - 1])
  {
  }

  /** The messages read from a saved array are the saved ones. */
  lemma {:induction false} FilterMapEncode(list: seq<ChatMessage>)
    ensures Seqs.FilterMap(Encode(list).items, DecodeItem) == list
    decreases |list|
  {
    if list != [] {
      FilterMapEncode(list[..|list| - 1]);
      EncodeLast(list);
      DecodeEncodeMessage(list[|list| - 1]);
      Seqs.FilterMapLast(Encode(list).items, DecodeItem);
      Seqs.SplitLast(list);
    }
  }

  /** Loading what was saved gives back every message with the same id,
      role, content and timestamp, in the same order. */
  lemma DecodeEncode(list: seq<ChatMessage>)
    ensures Decode(Some(Prefs.Document(Encode(list)))) == list
  {
    var items := Encode(list).items;
    assert forall k :: 0 <= k < |items| ==> items[k].JObject?;
    FilterMapEncode(list);
  }

  /** A missing key, unparsable text, a non-array value or an element that is
      not an object all load as an empty history. */
  lemma DecodeFailures(stored: Option<Prefs.Stored>, k: nat)
    ensures stored.None? || stored == Some(Prefs.Malformed) ==> Decode(stored) == []
    ensures stored.Some? && stored.value.Document? && !stored.value.doc.JArray? ==> Decode(stored) == []
    ensures (stored.Some? && stored.value.Document? && stored.value.doc.JArray?
      && k < |stored.value.doc.items| && !stored.value.doc.items[k].JObject?) ==> Decode(stored) == []
  {
  }

  /** Saving one poem's history leaves every other poem's history unchanged. */
  lemma SaveIsolated(prefs: map<string, Prefs.Stored>, saved: int, other: int, v: Prefs.Stored)
    requires saved != other
    ensures Decode(Prefs.Get(prefs[Key(saved) := v], Key(other))) == Decode(Prefs.Get(prefs, Key(other)))
  {
    KeyInjective(saved, other);
  }

  /** After deleting a message id, the poem's history loads as the previous
      history without any message carrying that id, the others in order. */
  lemma DeleteMessageLoads(list: seq<ChatMessage>, messageId: string)
    ensures var after := Decode(Some(Prefs.Document(Encode(Seqs.Filter(list, (m: ChatMessage) => m.id != messageId)))));
      (forall k :: 0 <= k < |after| ==> after[k].id != messageId && after[k] in list)
      && (forall k :: 0 <= k < |list| && list[k].id != messageId ==> list[k] in after)
      && Seqs.Subseq(after, list)
  {
    var keep := (m: ChatMessage) => m.id != messageId;
    DecodeEncode(Seqs.Filter(list, keep));
    Seqs.FilterMembers(list, keep);
    Seqs.FilterSubseq(list, keep);
  }
}
