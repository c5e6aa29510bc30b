/** The reply handling of `AiApiClient`: the non-streaming completion and the
    line loop of the streaming completion, a reduced form of Server-Sent
    Events (section 9.2 of the WHATWG HTML Living Standard) that reads only
    `data:` lines.  Building and sending the HTTP request is not modelled:
    the status code, the lines of the body and the JSON parser are inputs. */
module ApiClient {
  import opened Wrappers
  import KotlinText
  import Json
  import Seqs

  /** `Response.isSuccessful`: a status in 200..299. */
  predicate IsSuccessful(status: int) {
    200 <= status <= 299
  }

  /** The message of the exception raised for an unsuccessful response. */
  function ApiError(status: int): string {
    "API error: " + KotlinText.IntToString(status)
  }

  /** The temperature `createChatCompletion` sends when the caller gives none. */
  const DefaultTemperature: real := 0.3

  /** The temperature `createChatCompletion` sends. */
  function RequestTemperature(temperature: Option<real>): (t: real)
    ensures temperature.None? ==> t == DefaultTemperature
    ensures temperature.Some? ==> t == temperature.value
  {
    temperature.GetOr(DefaultTemperature)
  }

  // ---------------------------------------------------------------------------
  // non-streaming completion

  datatype CompletionError =
    | HttpStatus(code: int)  // the response was not successful
    | MalformedReply         // the body, or its first choice, is not a JSON object

  /** `createChatCompletion` after the response arrives: `reply` is the body
      parsed as a JSON object, `None` when the parser rejects it.  No choices
      give "", as does a first choice without a `message` object. */
  function CompletionContent(status: int, reply: Option<map<string, Json.Json>>): Result<string, CompletionError> {
    if !IsSuccessful(status) then Err(HttpStatus(status))
    else if reply.None? then Err(MalformedReply)
    else
      var choices := Json.OptArray(reply.value, "choices").GetOr([]);
      if |choices| == 0 then Ok("")
      else if !choices[0].JObject? then Err(MalformedReply)
      else
        match Json.OptObject(if "message" in choices[0].fields then choices[0].fields["message"] else Json.JNull)
        case Some(msg) => Ok(Json.OptString(msg, "content"))
        case None => Ok("")
  }

  /** An unsuccessful status is reported before the body is looked at; a
      successful reply with no choices is the empty text; a first choice with
      a message gives that message's content. */
  lemma CompletionCases(status: int, reply: Option<map<string, Json.Json>>)
    ensures !IsSuccessful(status) ==> CompletionContent(status, reply) == Err(HttpStatus(status))
    ensures IsSuccessful(status) && reply.Some? && "choices" !in reply.value ==> CompletionContent(status, reply) == Ok("")
    ensures IsSuccessful(status) && reply.Some? && "choices" in reply.value && reply.value["choices"] == Json.JArray([]) ==>
      CompletionContent(status, reply) == Ok("")
    ensures (IsSuccessful(status) && reply.Some? && "choices" in reply.value && reply.value["choices"].JArray?
             && |reply.value["choices"].items| > 0 && reply.value["choices"].items[0].JObject?
             && "message" in reply.value["choices"].items[0].fields
             && reply.value["choices"].items[0].fields["message"].JObject?) ==>
      CompletionContent(status, reply)
        == Ok(Json.OptString(reply.value["choices"].items[0].fields["message"].fields, "content"))
  {
  }

  // ---------------------------------------------------------------------------
  // streaming completion

  /** What one line of the event stream means to the loop. */
  datatype LineKind =
    | Ignored               // blank, or not a `data:` line
    | Done                  // `data: [DONE]`
    | Data(payload: string) // any other `data:` line, payload trimmed

  function ClassifyLine(line: string): LineKind {
    if KotlinText.IsBlank(line) then Ignored
    else if KotlinText.StartsWith(line, "data:") then
      var payload := KotlinText.Trim(KotlinText.RemovePrefix(line, "data:"));
      if payload == "[DONE]" then Done else Data(payload)
    else Ignored
  }

  /** Only a non-blank line starting with "data:" carries anything, and its
      payload is the trimmed rest of the line. */
  lemma ClassifyLineCases(line: string)
    ensures KotlinText.IsBlank(line) ==> ClassifyLine(line) == Ignored
    ensures !KotlinText.StartsWith(line, "data:") ==> ClassifyLine(line) == Ignored
    ensures ClassifyLine(line) != Ignored ==>
      line == "data:" + line[5..] && !KotlinText.IsBlank(line)
      && (ClassifyLine(line) == Done <==> KotlinText.Trim(line[5..]) == "[DONE]")
      && (ClassifyLine(line).Data? ==> ClassifyLine(line).payload == KotlinText.Trim(line[5..]))
  {
  }

  /** The token a chunk carries, before the emptiness test: the first
      choice's `delta.content`, or its `message.content` when it has no
      `delta` object.  A payload that is not a JSON object, missing or empty
      choices, a first choice that is not an object (the exception is
      swallowed), and a choice with neither object give none. */
  function ChunkToken(payload: string, parse: string -> Option<Json.Json>): Option<string> {
    var parsed := parse(payload);
    if parsed.None? || !parsed.value.JObject? then None
    else
      match Json.OptArray(parsed.value.fields, "choices")
      case None => None
      case Some(choices) =>
        if |choices| == 0 || !choices[0].JObject? then None
        else
          var c0 := choices[0].fields;
          if "delta" in c0 && c0["delta"].JObject? then Some(Json.OptString(c0["delta"].fields, "content"))
          else if "message" in c0 && c0["message"].JObject? then Some(Json.OptString(c0["message"].fields, "content"))
          else None
  }

  /** The `delta` wins over the `message` whenever it is an object, even when
      its content is empty or missing; `message` is read only without a
      `delta` object. */
  lemma DeltaTakesPrecedence(payload: string, parse: string -> Option<Json.Json>, c0: map<string, Json.Json>)
    requires parse(payload) == Some(Json.JObject(map["choices" := Json.JArray([Json.JObject(c0)])]))
    ensures "delta" in c0 && c0["delta"].JObject? ==>
      ChunkToken(payload, parse) == Some(Json.OptString(c0["delta"].fields, "content"))
    ensures !("delta" in c0 && c0["delta"].JObject?) && "message" in c0 && c0["message"].JObject? ==>
      ChunkToken(payload, parse) == Some(Json.OptString(c0["message"].fields, "content"))
    ensures !("delta" in c0 && c0["delta"].JObject?) && !("message" in c0 && c0["message"].JObject?) ==>
      ChunkToken(payload, parse) == None
  {
    var obj := map["choices" := Json.JArray([Json.JObject(c0)])];
    assert Json.OptArray(obj, "choices") == Some([Json.JObject(c0)]);
  }

  /** What one line contributes to the delivered tokens: the token of a
      data line, when there is one and it is not empty. */
  function LineTokens(line: string, extract: string -> Option<string>): seq<string> {
    match ClassifyLine(line)
    case Data(p) => (match extract(p) case Some(t) => if t != "" then [t] else [] case None => [])
    case _ => []
  }

  predicate IsDone(line: string) {
    ClassifyLine(line) == Done
  }

  /** The tokens handed to `onDelta` for the lines from index `i` on, in
      order, stopping at the first `[DONE]`. */
  function DeliveredFrom(lines: seq<string>, i: nat, extract: string -> Option<string>): seq<string> {
    Seqs.ConcatMapUntil(lines, i, IsDone, LineTokens, extract)
  }

  /** The tokens handed to `onDelta` for the lines read. */
  function Delivered(lines: seq<string>, extract: string -> Option<string>): seq<string> {
    DeliveredFrom(lines, 0, extract)
  }

  /** The stream holds a `[DONE]` line. */
  predicate HasDone(lines: seq<string>) {
    Seqs.AnyFrom(lines, 0, IsDone)
  }

  /** A `[DONE]` line carries no token, and nothing is delivered from it on. */
  lemma DoneDeliversNothing(lines: seq<string>, i: nat, extract: string -> Option<string>)
    requires i < |lines| && IsDone(lines[i])
    ensures LineTokens(lines[i], extract) == []
    ensures DeliveredFrom(lines, i, extract) == [] && Seqs.AnyFrom(lines, i, IsDone)
  {
  }

  /** The state of the read loop before line `i`: `tokens` were delivered
      so far, and the rest of the stream delivers the remainder. */
  ghost predicate Reading(lines: seq<string>, i: nat, tokens: seq<string>, extract: string -> Option<string>) {
    i <= |lines|
    && tokens + DeliveredFrom(lines, i, extract) == Delivered(lines, extract)
    && Seqs.AnyFrom(lines, i, IsDone) == HasDone(lines)
  }

  /** Before the first line nothing was delivered. */
  lemma ReadingStarts(lines: seq<string>, extract: string -> Option<string>)
    ensures Reading(lines, 0, [], extract)
  {
    Seqs.ConcatEmpty(Delivered(lines, extract));
  }

  /** A line other than `[DONE]` hands on its tokens and reading goes on
      with the next one. */
  lemma ReadingAdvance(lines: seq<string>, i: nat, extract: string -> Option<string>,
                       before: seq<string>, more: seq<string>)
    requires i < |lines| && !IsDone(lines[i]) && Reading(lines, i, before, extract)
    requires more == LineTokens(lines[i], extract)
    ensures Reading(lines, i + 1, before + more, extract)
  {
    Seqs.ConcatMapStep(lines, i, IsDone, LineTokens, extract);
    Seqs.ConcatAssoc(before, more, DeliveredFrom(lines, i + 1, extract));
  }

  /** Past the last line nothing is delivered and no `[DONE]` is left. */
  lemma EndDeliversNothing(lines: seq<string>, extract: string -> Option<string>)
    ensures DeliveredFrom(lines, |lines|, extract) == [] && !Seqs.AnyFrom(lines, |lines|, IsDone)
  {
  }

  /** The handling of one line of the body inside the read loop: whether
      it ends the stream, and the token it hands on, if any. */
  method HandleLine(line: string, extract: string -> Option<string>) returns (stop: bool, token: Option<string>)
    ensures stop == IsDone(line)
    ensures LineTokens(line, extract) == if token.Some? then [token.value] else []
  {
    stop, token := false, None;
    if KotlinText.IsBlank(line) {
      return;
    }
    if KotlinText.StartsWith(line, "data:") {
      var payload := KotlinText.Trim(KotlinText.RemovePrefix(line, "data:"));
      if payload == "[DONE]" {
        return true, None;
      }
      assert ClassifyLine(line) == Data(payload);
      var t := extract(payload);
      if t.Some? && t.value != "" {
        token := t;
      }
    }
  }

  /** The stream loop of `createChatCompletionStream`: `lines` are the lines
      read, `readFailure`, when present, is the message of the exception the
      next read throws, and `extract` is the token extraction of a payload
      (`ChunkToken` with the JSON parser).  Returns the tokens passed to
      `onDelta`, in order, and the message of the exception the call ends
      with, if any: "API error: <status>" for an unsuccessful status, none
      for a response without a body or a stream ended by `[DONE]`. */
  method StreamCompletion(status: int, lines: Option<seq<string>>, readFailure: Option<string>,
                          extract: string -> Option<string>)
    returns (tokens: seq<string>, failure: Option<string>)
    ensures !IsSuccessful(status) ==> tokens == [] && failure == Some(ApiError(status))
    ensures IsSuccessful(status) && lines.None? ==> tokens == [] && failure == None
    ensures IsSuccessful(status) && lines.Some? ==>
      tokens == Delivered(lines.value, extract)
      && failure == (if HasDone(lines.value) then None else readFailure)
  {
    if !IsSuccessful(status) {
      return [], Some(ApiError(status));
    }
    if lines.None? {
      return [], None;
    }
    tokens, failure := ReadLines(lines.value, readFailure, extract);
  }

  /** The `while (true)` loop over the body's lines. */
  method ReadLines(source: seq<string>, readFailure: Option<string>, extract: string -> Option<string>)
    returns (tokens: seq<string>, failure: Option<string>)
    ensures tokens == Delivered(source, extract)
    ensures failure == if HasDone(source) then None else readFailure
  {
    tokens := [];
    var i: nat := 0;
    ReadingStarts(source, extract);
    while true
      invariant Reading(source, i, tokens, extract)
      decreases |source| - i
    {
      if i == |source| {
        EndDeliversNothing(source, extract);
        Seqs.ConcatEmpty(tokens);
        return tokens, readFailure;
      }
      var stop, token := HandleLine(source[i], extract);
      if stop {
        DoneDeliversNothing(source, i, extract);
        Seqs.ConcatEmpty(tokens);
        return tokens, None;
      }
      if token.Some? {
        ReadingAdvance(source, i, extract, tokens, [token.value]);
        tokens := tokens + [token.value];
      } else {
        ReadingAdvance(source, i, extract, tokens, []);
        Seqs.ConcatEmpty(tokens);
      }
      i := i + 1;
    }
  }

  /** `HasDone` says some line is `[DONE]`. */
  lemma HasDoneIff(lines: seq<string>)
    ensures HasDone(lines) <==> exists k :: 0 <= k < |lines| && ClassifyLine(lines[k]) == Done
  {
    Seqs.AnyFromIff(lines, 0, IsDone);
  }

  /** Tokens are delivered in the order of their lines: the tokens of a
      stream are those of its first part followed by those of the rest,
      provided the first part has no `[DONE]`. */
  lemma DeliveredConcat(a: seq<string>, b: seq<string>, extract: string -> Option<string>)
    requires !HasDone(a)
    ensures Delivered(a + b, extract) == Delivered(a, extract) + Delivered(b, extract)
    ensures HasDone(a + b) == HasDone(b)
  {
    Seqs.ConcatMapConcat(a, b, 0, IsDone, LineTokens, extract);
  }

  /** Once `[DONE]` has been read, nothing after it is ever delivered. */
  lemma DoneStops(a: seq<string>, b: seq<string>, extract: string -> Option<string>)
    requires HasDone(a)
    ensures Delivered(a + b, extract) == Delivered(a, extract)
  {
    Seqs.ConcatMapStops(a, b, 0, IsDone, LineTokens, extract);
  }

  /** A skipped line on its own delivers nothing and does not stop the stream. */
  lemma IgnoredLineAlone(line: string, extract: string -> Option<string>)
    requires ClassifyLine(line) == Ignored
    ensures !HasDone([line]) && Delivered([line], extract) == []
  {
    assert [line][0] == line;
    assert !IsDone([line][0]);
    assert !Seqs.AnyFrom([line], 1, IsDone);
    assert Seqs.ConcatMapUntil([line], 1, IsDone, LineTokens, extract) == [];
    assert LineTokens([line][0], extract) == [];
  }

  /** A skipped line (blank, or not a `data:` line) changes nothing. */
  lemma IgnoredLineChangesNothing(a: seq<string>, line: string, b: seq<string>, extract: string -> Option<string>)
    requires !HasDone(a) && ClassifyLine(line) == Ignored
    ensures Delivered(a + [line] + b, extract) == Delivered(a + b, extract)
  {
    assert a + [line] + b == a + ([line] + b);
    IgnoredLineAlone(line, extract);
    DeliveredConcat([line], b, extract);
    assert Delivered([line] + b, extract) == Delivered(b, extract);
    DeliveredConcat(a, [line] + b, extract);
    DeliveredConcat(a, b, extract);
  }

  /** Every delivered token is a non-empty token of a `data:` line read
      before any `[DONE]`. */
  lemma DeliveredTokensFromData(lines: seq<string>, extract: string -> Option<string>)
    ensures forall t :: t in Delivered(lines, extract) ==>
      t != "" && exists k :: (0 <= k < |lines| && ClassifyLine(lines[k]).Data?
        && extract(ClassifyLine(lines[k]).payload) == Some(t))
  {
    Seqs.ConcatMapMembers(lines, 0, IsDone, LineTokens, extract);
    forall t | t in Delivered(lines, extract)
      ensures t != "" && exists k :: (0 <= k < |lines| && ClassifyLine(lines[k]).Data?
        && extract(ClassifyLine(lines[k]).payload) == Some(t))
    {
      var k :| 0 <= k < |lines| && !IsDone(lines[k]) && t in LineTokens(lines[k], extract);
      assert t in LineTokens(lines[k], extract);
    }
  }
}
