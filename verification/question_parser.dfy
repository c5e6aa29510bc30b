/** Turning the model's reply into dictation questions
    (`AiDictationViewModel.parseQuestions`). */
module QuestionParser {
  import opened Wrappers
  import KotlinText
  import Json
  import Seqs

  /** The three text fields of a dictation question. */
  datatype Entry = Entry(prompt: string, answer: string, explanation: string)

  /** The part of the reply handed to the JSON parser (`jsonText`). */
  function ExtractArrayText(raw: string): string {
    var start := KotlinText.IndexOf(raw, '[');
    var end := KotlinText.LastIndexOf(raw, ']');
    if start >= 0 && end > start then raw[start..end + 1] else raw
  }

  /** Some '[' of the text comes before some ']'. */
  predicate HasBracketPair(raw: string) {
    exists i, j :: 0 <= i < j < |raw| && raw[i] == '[' && raw[j] == ']'
  }

  /** With a '[' before a ']', the first '[' comes before the last ']' and
      the parser sees the text between them. */
  lemma ExtractFound(raw: string) returns (s: nat, e: nat)
    requires HasBracketPair(raw)
    ensures s < e < |raw| && ExtractArrayText(raw) == raw[s..e + 1]
    ensures raw[s] == '[' && raw[e] == ']'
    ensures forall k :: 0 <= k < s ==> raw[k] != '['
    ensures forall k :: e < k < |raw| ==> raw[k] != ']'
  {
    var i, j :| 0 <= i < j < |raw| && raw[i] == '[' && raw[j] == ']';
    var start := KotlinText.IndexOf(raw, '[');
    var end := KotlinText.LastIndexOf(raw, ']');
    assert 0 <= start <= i;
    assert j <= end;
    s, e := start, end;
  }

  /** Without a '[' before a ']', the parser sees the whole reply. */
  lemma ExtractNotFound(raw: string)
    requires !HasBracketPair(raw)
    ensures ExtractArrayText(raw) == raw
  {
    var start := KotlinText.IndexOf(raw, '[');
    var end := KotlinText.LastIndexOf(raw, ']');
    assert !(start >= 0 && end > start);
  }

  /** When some '[' precedes some ']', the parser sees the text running from
      the first '[' of the reply to its last ']'; otherwise the whole reply. */
  lemma ExtractArrayTextShape(raw: string)
    ensures HasBracketPair(raw) ==>
      exists s, e :: 0 <= s < e < |raw| && ExtractArrayText(raw) == raw[s..e + 1]
        && raw[s] == '[' && raw[e] == ']'
        && (forall k :: 0 <= k < s ==> raw[k] != '[')
        && (forall k :: e < k < |raw| ==> raw[k] != ']')
    ensures !HasBracketPair(raw) ==> ExtractArrayText(raw) == raw
  {
    if HasBracketPair(raw) {
      var s, e := ExtractFound(raw);
    } else {
      ExtractNotFound(raw);
    }
  }

  /** One array element as a question: it must be an object whose question and
      answer (each falling back to the Chinese key when blank) are not blank;
      the kept fields are trimmed. */
  function EntryOf(item: Json.Json): (r: Option<Entry>)
    ensures r.Some? ==> item.JObject?
  {
    match Json.OptObject(item)
    case None => None
    case Some(o) =>
      var q := KotlinText.IfBlank(Json.OptString(o, "question"), Json.OptString(o, "题目"));
      var a := KotlinText.IfBlank(Json.OptString(o, "answer"), Json.OptString(o, "答案"));
      var e := KotlinText.IfBlank(Json.OptString(o, "explanation"), Json.OptString(o, "解析"));
      if !KotlinText.IsBlank(q) && !KotlinText.IsBlank(a) then
        Some(Entry(KotlinText.Trim(q), KotlinText.Trim(a), KotlinText.Trim(e)))
      else None
  }

  /** The questions of a parsed array, in order, skipping elements that are
      not usable questions. */
  function EntriesOf(items: seq<Json.Json>): seq<Entry> {
    Seqs.FilterMap(items, EntryOf)
  }

  /** The questions the reply yields: a top-level array, else an object's
      "questions" array, else nothing. */
  function Parsed(raw: string, parse: string -> Option<Json.Json>): seq<Entry> {
    var text := ExtractArrayText(raw);
    match parse(text)
    case Some(JArray(items)) => EntriesOf(items)
    case Some(JObject(fields)) =>
      (match Json.OptArray(fields, "questions")
       case Some(items) => EntriesOf(items)
       case None => [])
    case _ => []
  }

  /** The loop over the array elements, appending each usable question to `out`. */
  method CollectEntries(items: seq<Json.Json>) returns (out: seq<Entry>)
    ensures out == EntriesOf(items)
  {
    out := [];
    for i := 0 to |items|
      invariant out == EntriesOf(items[..i])
    {
      assert items[..i + 1][..i] == items[..i];
      assert items[..i + 1][i] == items[i];
      var e := EntryOf(items[i]);
      if e.Some? {
        out := out + [e.value];
      }
    }
    assert items[..|items|] == items;
  }

  /** `parseQuestions`. */
  method ParseQuestions(raw: string, parse: string -> Option<Json.Json>) returns (out: seq<Entry>)
    ensures out == Parsed(raw, parse)
  {
    var jsonText := ExtractArrayText(raw);
    var parsed := parse(jsonText);
    if parsed.Some? && parsed.value.JArray? {
      out := CollectEntries(parsed.value.items);
    } else if parsed.Some? && parsed.value.JObject? {
      var arr := Json.OptArray(parsed.value.fields, "questions");
      if arr.None? {
        return [];
      }
      out := CollectEntries(arr.value);
    } else {
      out := [];
    }
  }

  /** A well-formed question: non-blank prompt and answer, every field trimmed. */
  predicate WellFormed(e: Entry) {
    !KotlinText.IsBlank(e.prompt) && !KotlinText.IsBlank(e.answer)
    && KotlinText.Trim(e.prompt) == e.prompt && KotlinText.Trim(e.answer) == e.answer
    && KotlinText.Trim(e.explanation) == e.explanation
  }

  /** Every question produced from an element is well-formed. */
  lemma EntryOfWellFormed(item: Json.Json)
    ensures EntryOf(item).Some? ==> WellFormed(EntryOf(item).value)
  {
    if EntryOf(item).Some? {
      var o := item.fields;
      var q := KotlinText.IfBlank(Json.OptString(o, "question"), Json.OptString(o, "题目"));
      var a := KotlinText.IfBlank(Json.OptString(o, "answer"), Json.OptString(o, "答案"));
      var e := KotlinText.IfBlank(Json.OptString(o, "explanation"), Json.OptString(o, "解析"));
      KotlinText.TrimNonBlank(q);
      KotlinText.TrimNonBlank(a);
      KotlinText.TrimIdempotent(q);
      KotlinText.TrimIdempotent(a);
      KotlinText.TrimIdempotent(e);
    }
  }

  /** The questions of an array are exactly its usable elements: each one
      comes from an element and is well-formed, and each usable element gives one. */
  lemma EntriesExactly(items: seq<Json.Json>)
    ensures forall e :: e in EntriesOf(items) ==>
      WellFormed(e) && exists k :: 0 <= k < |items| && EntryOf(items[k]) == Some(e)
    ensures forall k :: 0 <= k < |items| && EntryOf(items[k]).Some? ==> EntryOf(items[k]).value in EntriesOf(items)
  {
    Seqs.FilterMapSound(items, EntryOf);
    Seqs.FilterMapComplete(items, EntryOf);
    forall e | e in EntriesOf(items) ensures WellFormed(e) {
      var k :| 0 <= k < |items| && EntryOf(items[k]) == Some(e);
      EntryOfWellFormed(items[k]);
    }
  }

  /** A blank English field falls back to the Chinese key. */
  lemma FallbackKeys(o: map<string, Json.Json>)
    requires KotlinText.IsBlank(Json.OptString(o, "question")) && KotlinText.IsBlank(Json.OptString(o, "answer"))
    requires !KotlinText.IsBlank(Json.OptString(o, "题目")) && !KotlinText.IsBlank(Json.OptString(o, "答案"))
    ensures EntryOf(Json.JObject(o)).Some?
    ensures EntryOf(Json.JObject(o)).value.prompt == KotlinText.Trim(Json.OptString(o, "题目"))
    ensures EntryOf(Json.JObject(o)).value.answer == KotlinText.Trim(Json.OptString(o, "答案"))
  {
  }

  /** An element with a blank question or answer under both keys is dropped. */
  lemma BlankDropped(o: map<string, Json.Json>)
    requires KotlinText.IsBlank(Json.OptString(o, "question")) && KotlinText.IsBlank(Json.OptString(o, "题目"))
    ensures EntryOf(Json.JObject(o)) == None
  {
  }

  /** A reply whose bracketed part parses to neither an array nor an object
      gives no questions. */
  lemma UnparsableGivesNothing(raw: string, parse: string -> Option<Json.Json>)
    requires parse(ExtractArrayText(raw)).None?
    ensures Parsed(raw, parse) == []
  {
  }
}
