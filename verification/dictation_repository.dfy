/** The per-poem store of generated dictation questions (`DictationRepository`).
    Only the prompt, answer and explanation of a question are stored. */
module DictationStore {
  import opened Wrappers
  import KotlinText
  import Json
  import Seqs
  import Prefs
  import opened QuestionParser

  /** `key`: "dictation_" followed by the poem id in decimal. */
  function Key(poemId: int): (k: string)
    ensures |k| > 10 && k[..10] == "dictation_"
  {
    "dictation_" + KotlinText.IntToString(poemId)
  }

  /** Different poems never share a key. */
  lemma KeyInjective(a: int, b: int)
    ensures Key(a) == Key(b) <==> a == b
  {
    if Key(a) == Key(b) {
      assert Key(a)[10..] == KotlinText.IntToString(a);
      assert Key(b)[10..] == KotlinText.IntToString(b);
      KotlinText.IntToStringInjective(a, b);
    }
  }

  /** The object `save` writes for one question. */
  function EncodeEntry(e: Entry): Json.Json {
    Json.JObject(map[
      "question" := Json.JString(e.prompt),
      "answer" := Json.JString(e.answer),
      "explanation" := Json.JString(e.explanation)])
  }

  /** The array `save` writes for a list of questions. */
  function Encode(list: seq<Entry>): Json.Json {
    Json.JArray(seq(|list|, i requires 0 <= i < |list| => EncodeEntry(list[i])))
  }

  /** The question `load` reads from one object of the array, if its
      question and answer are not blank; the fields are kept untrimmed. */
  function DecodeFields(fields: map<string, Json.Json>): Option<Entry> {
    var q := Json.OptString(fields, "question");
    var a := Json.OptString(fields, "answer");
    var e := Json.OptString(fields, "explanation");
    if !KotlinText.IsBlank(q) && !KotlinText.IsBlank(a) then Some(Entry(q, a, e)) else None
  }

  function DecodeItem(item: Json.Json): Option<Entry> {
    if item.JObject? then DecodeFields(item.fields) else None
  }

  /** A question kept by `load`: its prompt and answer are not blank. */
  predicate Persistable(e: Entry) {
    !KotlinText.IsBlank(e.prompt) && !KotlinText.IsBlank(e.answer)
  }

  /** Every element of the stored array is an object. */
  predicate AllObjects(items: seq<Json.Json>) {
    forall k :: 0 <= k < |items| ==> items[k].JObject?
  }

  /** What `load` returns for the stored value: nothing when the key is
      missing, the text does not parse as an array, or some element is not an
      object (`getJSONObject` throws and the whole load fails); otherwise the
      usable questions in order. */
  function Decode(stored: Option<Prefs.Stored>): seq<Entry> {
    if stored.Some? && stored.value.Document? && stored.value.doc.JArray? then
      var items := stored.value.doc.items;
      if AllObjects(items) then Seqs.FilterMap(items, DecodeItem) else []
    else []
  }

  /** The state of the load loop before element `i`: every element so far
      is an object, and `out` holds their usable questions. */
  ghost predicate Loading(arr: seq<Json.Json>, i: nat, out: seq<Entry>) {
    i <= |arr| && out == Seqs.FilterMap(arr[..i], DecodeItem)
    && forall k :: 0 <= k < i ==> arr[k].JObject?
  }

  /** An object element adds its question, if it has a usable one. */
  lemma LoadingStep(arr: seq<Json.Json>, i: nat, out: seq<Entry>)
    requires i < |arr| && arr[i].JObject? && Loading(arr, i, out)
    ensures var d := DecodeFields(arr[i].fields);
      Loading(arr, i + 1, out + (if d.Some? then [d.value] else []))
  {
    Seqs.FilterMapStep(arr, i, DecodeItem);
  }

  /** After the last element, `out` is the decoded array. */
  lemma LoadingDone(arr: seq<Json.Json>, out: seq<Entry>)
    requires Loading(arr, |arr|, out)
    ensures AllObjects(arr) && out == Seqs.FilterMap(arr, DecodeItem)
  {
    assert arr[..|arr|] == arr;
  }

  /** The loop of `load` over the stored array: the usable questions, or
      nothing as soon as an element is not an object. */
  method ReadArray(arr: seq<Json.Json>) returns (out: seq<Entry>)
    ensures AllObjects(arr) ==> out == Seqs.FilterMap(arr, DecodeItem)
    ensures !AllObjects(arr) ==> out == []
  {
    out := [];
    for i := 0 to |arr|
      invariant Loading(arr, i, out)
    {
      if !arr[i].JObject? {
        return [];
      }
      var obj := arr[i].fields;
      var q := Json.OptString(obj, "question");
      var a := Json.OptString(obj, "answer");
      var e := Json.OptString(obj, "explanation");
      LoadingStep(arr, i, out);
      if !KotlinText.IsBlank(q) && !KotlinText.IsBlank(a) {
        out := out + [Entry(q, a, e)];
      } else {
        Seqs.ConcatEmpty(out);
      }
    }
    LoadingDone(arr, out);
  }

  class DictationRepository {
    var prefs: map<string, Prefs.Stored>

    constructor (initial: map<string, Prefs.Stored>)
      ensures prefs == initial
    {
      prefs := initial;
    }

    /** `load`. */
    method Load(poemId: int) returns (out: seq<Entry>)
      ensures out == Decode(Prefs.Get(prefs, Key(poemId)))
    {
      var raw := Prefs.Get(prefs, Key(poemId));
      if raw.None? || raw.value.Malformed? || !raw.value.doc.JArray? {
        return [];
      }
      out := ReadArray(raw.value.doc.items);
    }

    /** `save`: writes the questions, in order, under the poem's key. */
    method Save(poemId: int, list: seq<Entry>)
      modifies this
      ensures prefs == old(prefs)[Key(poemId) := Prefs.Document(Encode(list))]
    {
      var arr: seq<Json.Json> := [];
      for i := 0 to |list|
        invariant arr == Encode(list[..i]).items
      {
        arr := arr + [EncodeEntry(list[i])];
      }
      assert list[..|list|] == list;
      prefs := prefs[Key(poemId) := Prefs.Document(Json.JArray(arr))];
    }
  }

  /** Missing, unparsable and non-array values load as no questions; any
      question loaded has a non-blank prompt and answer. */
  lemma DecodeCases(stored: Option<Prefs.Stored>)
    ensures stored.None? || stored == Some(Prefs.Malformed) ==> Decode(stored) == []
    ensures stored.Some? && stored.value.Document? && !stored.value.doc.JArray? ==> Decode(stored) == []
    ensures forall e :: e in Decode(stored) ==> Persistable(e)
  {
    if stored.Some? && stored.value.Document? && stored.value.doc.JArray? {
      var items := stored.value.doc.items;
      Seqs.FilterMapSound(items, DecodeItem);
    }
  }

  /** An array with an element that is not an object loads as no questions. */
  lemma NonObjectSpoilsLoad(items: seq<Json.Json>, k: nat)
    requires k < |items| && !items[k].JObject?
    ensures Decode(Some(Prefs.Document(Json.JArray(items)))) == []
  {
  }

  /** One saved question reads back as itself when it is persistable. */
  lemma DecodeEncodeEntry(e: Entry)
    ensures DecodeItem(EncodeEntry(e)) == if Persistable(e) then Some(e) else None
  {
    var fields := EncodeEntry(e).fields;
    assert Json.OptString(fields, "question") == e.prompt;
    assert Json.OptString(fields, "answer") == e.answer;
    assert Json.OptString(fields, "explanation") == e.explanation;
  }

  /** The saved array of a non-empty list: the array of all but its last
      question, then the last question's object. */
  lemma EncodeLast(list: seq<Entry>)
    requires list != []
    ensures var items := Encode(list).items;
      items != [] && items[..|items| - 1] == Encode(list[..|list| - 1]).items
      && items[|items| - 1] == EncodeEntry(list[|list| - 1])
  {
  }

  /** The usable questions of a saved list are its persistable ones. */
  lemma {:induction false} FilterMapEncode(list: seq<Entry>)
    ensures Seqs.FilterMap(Encode(list).items, DecodeItem) == Seqs.Filter(list, Persistable)
    decreases |list|
  {
    if list != [] {
      FilterMapEncode(list[..|list| - 1]);
      EncodeLast(list);
      DecodeEncodeEntry(list[|list| - 1]);
      Seqs.FilterLast(list, Persistable);
    }
  }

  /** Loading what was saved gives back the saved questions whose prompt and
      answer are not blank, with the same fields, in the same order. */
  lemma DecodeEncode(list: seq<Entry>)
    ensures Decode(Some(Prefs.Document(Encode(list)))) == Seqs.Filter(list, Persistable)
  {
    var items := Encode(list).items;
    assert forall k :: 0 <= k < |items| ==> items[k].JObject?;
    FilterMapEncode(list);
  }

  /** When every saved question has a non-blank prompt and answer, loading
      gives back exactly the saved list. */
  lemma RoundTrip(list: seq<Entry>)
    requires forall k :: 0 <= k < |list| ==> Persistable(list[k])
    ensures Decode(Some(Prefs.Document(Encode(list)))) == list
  {
    DecodeEncode(list);
    Seqs.FilterAllKept(list, Persistable);
  }

  /** Saving under one poem leaves what every other poem loads unchanged. */
  lemma SaveIsolated(prefs: map<string, Prefs.Stored>, saved: int, other: int, v: Prefs.Stored)
    requires saved != other
    ensures Decode(Prefs.Get(prefs[Key(saved) := v], Key(other))) == Decode(Prefs.Get(prefs, Key(other)))
  {
    KeyInjective(saved, other);
  }

  /** Questions produced by the reply parser survive a save and load intact. */
  lemma ParsedSurviveRoundTrip(list: seq<Entry>)
    requires forall k :: 0 <= k < |list| ==> WellFormed(list[k])
    ensures Decode(Some(Prefs.Document(Encode(list)))) == list
  {
    RoundTrip(list);
  }
}
