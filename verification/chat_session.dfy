/** The chat screen's conversation (`AiChatViewModel`): the working list of
    messages, sending a question, the streamed reply written into the
    placeholder, the failure text, grouping into turns and deleting a turn. */
module ChatSession {
  import opened Wrappers
  import KotlinText
  import Seqs
  import Prefs
  import ApiClient
  import ChatStore
  import opened ChatMessages

  /** Shown after the failure prefix when the exception carries no message. */
  const UnknownError: string := "未知错误"

  /** The start of the text that replaces a failed reply. */
  const FailurePrefix: string := "请求失败："

  /** How many messages before the placeholder go with a question. */
  const ContextSize: nat := 10

  /** One row of the conversation: a question and the reply that follows it;
      either side may be missing. */
  datatype ChatTurn = ChatTurn(user: Option<ChatMessage>, assistant: Option<ChatMessage>)

  /** How reading the reply body stopped once the given lines were read: the
      body ran out, a read threw (with the exception's message, if any), or
      the call was cancelled. */
  datatype StreamEnd = Exhausted | ReadFailed(message: Option<string>) | Cancelled

  /** What the streaming request came to: no response at all (the exception's
      message, if any), or a response with its status, its body as lines if
      it had one, and how reading stopped.  A call cancelled before any
      response arrived also lands in the catch with the call marked
      cancelled, so the placeholder is kept; that case is given as
      `Responded(_, None, Cancelled)`, never as `ConnectFailed`. */
  datatype Exchange =
    | ConnectFailed(message: Option<string>)
    | Responded(status: int, body: Option<seq<string>>, end: StreamEnd)

  // ---------------------------------------------------------------------------
  // the reply written into the last message

  predicate EndsWithAssistant(list: seq<ChatMessage>) {
    list != [] && list[|list| - 1].role == Assistant
  }

  /** The list after `text` is appended to the content of its last message,
      if that message is the assistant's; otherwise the list unchanged. */
  function AppendToLast(list: seq<ChatMessage>, text: string): (r: seq<ChatMessage>)
    ensures |r| == |list| && forall k :: 0 <= k < |list| - 1 ==> r[k] == list[k]
    ensures EndsWithAssistant(list) ==>
      r[|r| - 1] == list[|list| - 1].(content := list[|list| - 1].content + text)
    ensures !EndsWithAssistant(list) ==> r == list
  {
    if EndsWithAssistant(list) then
      var last := list[|list| - 1];
      list[|list| - 1 := last.(content := last.content + text)]
    else list
  }

  /** The list after the content of its last message is replaced by `text`,
      if that message is the assistant's; otherwise the list unchanged. */
  function ReplaceLast(list: seq<ChatMessage>, text: string): (r: seq<ChatMessage>)
    ensures |r| == |list| && forall k :: 0 <= k < |list| - 1 ==> r[k] == list[k]
    ensures EndsWithAssistant(list) ==> r[|r| - 1] == list[|list| - 1].(content := text)
    ensures !EndsWithAssistant(list) ==> r == list
  {
    if EndsWithAssistant(list) then
      list[|list| - 1 := list[|list| - 1].(content := text)]
    else list
  }

  /** The tokens run together. */
  function Concat(tokens: seq<string>): string
    decreases |tokens|
  {
    if tokens == [] then "" else Concat(tokens[..|tokens| - 1]) + tokens[|tokens| - 1]
  }

  /** Joining two runs of tokens one after the other is joining each and
      putting the texts together. */
  lemma {:induction false} ConcatAppend(a: seq<string>, b: seq<string>)
    ensures Concat(a + b) == Concat(a) + Concat(b)
    decreases |b|
  {
    if b == [] {
      assert a + b == a;
    } else {
      var init := b[..|b| - 1];
      ConcatAppend(a, init);
      assert (a + b)[..|a + b| - 1] == a + init;
      assert Concat(a) + Concat(init) + b[|b| - 1] == Concat(a) + (Concat(init) + b[|b| - 1]);
    }
  }

  /** One token joined is that token. */
  lemma ConcatSingle(t: string)
    ensures Concat([t]) == t
  {
    assert [t][..0] == [];
    Seqs.ConcatEmpty(t);
  }

  /** Appending twice is appending the two texts at once. */
  lemma AppendToLastTwice(list: seq<ChatMessage>, x: string, y: string)
    ensures AppendToLast(AppendToLast(list, x), y) == AppendToLast(list, x + y)
    ensures AppendToLast(list, "") == list
  {
    if EndsWithAssistant(list) {
      var last := list[|list| - 1];
      assert last.content + x + y == last.content + (x + y);
      assert last.content + "" == last.content;
      assert list[|list| - 1 := last] == list;
    }
  }

  /** The tokens the reply delivers. */
  function StreamTokens(exchange: Exchange, extract: string -> Option<string>): seq<string> {
    match exchange
    case ConnectFailed(_) => []
    case Responded(status, body, _) =>
      if !ApiClient.IsSuccessful(status) || body.None? then [] else ApiClient.Delivered(body.value, extract)
  }

  /** The message of the exception that ends the exchange, when it is not a
      cancellation: a failed connection, an unsuccessful status, or a read
      that threw before `[DONE]`. */
  function StreamFailure(exchange: Exchange): Option<string> {
    match exchange
    case ConnectFailed(message) => Some(message.GetOr(UnknownError))
    case Responded(status, body, end) =>
      if end.Cancelled? then None
      else if !ApiClient.IsSuccessful(status) then Some(ApiClient.ApiError(status))
      else if body.None? || ApiClient.HasDone(body.value) || !end.ReadFailed? then None
      else Some(end.message.GetOr(UnknownError))
  }

  /** The list once the reply has been received into it. */
  function Outcome(list: seq<ChatMessage>, exchange: Exchange, extract: string -> Option<string>): seq<ChatMessage> {
    var after := AppendToLast(list, Concat(StreamTokens(exchange, extract)));
    match StreamFailure(exchange)
    case Some(message) => ReplaceLast(after, FailurePrefix + message)
    case None => after
  }

  /** The (role, content) pairs sent after the system prompt and the poem. */
  function ContextPairs(tail: seq<ChatMessage>): (r: seq<(string, string)>)
    ensures |r| == |tail|
    ensures forall k :: 0 <= k < |r| ==> r[k] == (ChatStore.RoleName(tail[k].role), tail[k].content)
  {
    seq(|tail|, i requires 0 <= i < |tail| => (ChatStore.RoleName(tail[i].role), tail[i].content))
  }

  // ---------------------------------------------------------------------------
  // turns

  /** The turns of `list` from position `i` on: a user message takes the
      assistant message right after it, an assistant message without one
      before it stands alone. */
  function TurnsFrom(list: seq<ChatMessage>, i: nat): seq<ChatTurn>
    decreases |list| - i
  {
    if i >= |list| then []
    else if list[i].role == User then
      if i + 1 < |list| && list[i + 1].role == Assistant then
        [ChatTurn(Some(list[i]), Some(list[i + 1]))] + TurnsFrom(list, i + 2)
      else [ChatTurn(Some(list[i]), None)] + TurnsFrom(list, i + 1)
    else [ChatTurn(None, Some(list[i]))] + TurnsFrom(list, i + 1)
  }

  function Turns(list: seq<ChatMessage>): seq<ChatTurn> {
    TurnsFrom(list, 0)
  }

  /** `buildTurns`. */
  method BuildTurns(list: seq<ChatMessage>) returns (result: seq<ChatTurn>)
    ensures result == Turns(list)
  {
    result := [];
    var i := 0;
    while i < |list|
      invariant 0 <= i <= |list|
      invariant result + TurnsFrom(list, i) == Turns(list)
      decreases |list| - i
    {
      var m := list[i];
      var turn, j;
      if m.role == User {
        var next := if i + 1 < |list| && list[i + 1].role == Assistant then Some(list[i + 1]) else None;
        turn, j := ChatTurn(Some(m), next), i + if next.Some? then 2 else 1;
      } else {
        turn, j := ChatTurn(None, Some(m)), i + 1;
      }
      assert TurnsFrom(list, i) == [turn] + TurnsFrom(list, j);
      Seqs.ConcatAssoc(result, [turn], TurnsFrom(list, j));
      result := result + [turn];
      i := j;
    }
    assert TurnsFrom(list, i) == [];
    Seqs.ConcatEmpty(result);
  }

  /** The messages a turn shows, the question first. */
  function TurnMessages(t: ChatTurn): seq<ChatMessage> {
    (if t.user.Some? then [t.user.value] else []) + (if t.assistant.Some? then [t.assistant.value] else [])
  }

  function Flatten(turns: seq<ChatTurn>): seq<ChatMessage>
    decreases |turns|
  {
    if turns == [] then [] else TurnMessages(turns[0]) + Flatten(turns[1..])
  }

  /** A turn as `buildTurns` makes it: not empty, its question from the
      user and its reply from the assistant. */
  predicate WellShaped(t: ChatTurn) {
    (t.user.Some? || t.assistant.Some?)
    && (t.user.Some? ==> t.user.value.role == User)
    && (t.assistant.Some? ==> t.assistant.value.role == Assistant)
  }

  /** Flattening the turns from position `i` gives back the rest of the list. */
  lemma {:induction false} FlattenTurnsFrom(list: seq<ChatMessage>, i: nat)
    requires i <= |list|
    ensures Flatten(TurnsFrom(list, i)) == list[i..]
    decreases |list| - i
  {
    if i < |list| {
      var step := if list[i].role == User && i + 1 < |list| && list[i + 1].role == Assistant then 2 else 1;
      FlattenTurnsFrom(list, i + step);
      var ts := TurnsFrom(list, i);
      assert ts[1..] == TurnsFrom(list, i + step);
      assert TurnMessages(ts[0]) == list[i..i + step];
      assert list[i..] == list[i..i + step] + list[i + step..];
    }
  }

  /** Every turn from position `i` on is well shaped. */
  lemma {:induction false} TurnsFromWellShaped(list: seq<ChatMessage>, i: nat)
    ensures forall k :: 0 <= k < |TurnsFrom(list, i)| ==> WellShaped(TurnsFrom(list, i)[k])
    decreases |list| - i
  {
    if i < |list| {
      var step := if list[i].role == User && i + 1 < |list| && list[i + 1].role == Assistant then 2 else 1;
      TurnsFromWellShaped(list, i + step);
      var ts := TurnsFrom(list, i);
      assert ts == [ts[0]] + TurnsFrom(list, i + step);
    }
  }

  /** A question without a reply is never followed by a lone reply: the
      pairing is as eager as it can be.  The first turn from `i` has a
      question exactly when the message at `i` is the user's. */
  lemma {:induction false} TurnsFromEager(list: seq<ChatMessage>, i: nat)
    ensures TurnsFrom(list, i) != [] ==> i < |list| && TurnsFrom(list, i)[0].user.Some? == (list[i].role == User)
    ensures forall k :: 0 <= k < |TurnsFrom(list, i)| - 1 && TurnsFrom(list, i)[k].assistant.None? ==>
      TurnsFrom(list, i)[k + 1].user.Some?
    decreases |list| - i
  {
    if i < |list| {
      var step := if list[i].role == User && i + 1 < |list| && list[i + 1].role == Assistant then 2 else 1;
      TurnsFromEager(list, i + step);
      var ts := TurnsFrom(list, i);
      var rest := TurnsFrom(list, i + step);
      assert ts == [ts[0]] + rest;
      if rest != [] && ts[0].assistant.None? {
        assert list[i + 1].role == User;
      }
    }
  }

  /** The turns of a whole list: flattening them gives back the list, each is
      well shaped, and a question without a reply is never followed by a
      lone reply. */
  lemma TurnsProperties(list: seq<ChatMessage>)
    ensures Flatten(Turns(list)) == list
    ensures forall k :: 0 <= k < |Turns(list)| ==> WellShaped(Turns(list)[k])
    ensures forall k :: 0 <= k < |Turns(list)| - 1 && Turns(list)[k].assistant.None? ==> Turns(list)[k + 1].user.Some?
  {
    FlattenTurnsFrom(list, 0);
    TurnsFromWellShaped(list, 0);
    TurnsFromEager(list, 0);
  }

  // ---------------------------------------------------------------------------
  // deleting a turn

  predicate HasIdOf(messageId: string, m: ChatMessage) {
    m.id == messageId
  }

  /** The ids `deleteTurnByMessageId` removes: none for an unknown id;
      otherwise the first message with that id and, if it is a question, the
      reply right after it, or if it is a reply, the question right before it. */
  function DeletionIds(list: seq<ChatMessage>, messageId: string): set<string> {
    var idx := Seqs.IndexOfFirst(list, m => HasIdOf(messageId, m));
    if idx == -1 then {}
    else
      var target := list[idx];
      if target.role == User then
        if idx + 1 < |list| && list[idx + 1].role == Assistant then {target.id, list[idx + 1].id} else {target.id}
      else
        if idx - 1 >= 0 && list[idx - 1].role == User then {target.id, list[idx - 1].id} else {target.id}
  }

  predicate Survives(ids: set<string>, m: ChatMessage) {
    m.id !in ids
  }

  /** `Survives` as the test handed to `filter`. */
  function SurvivorOf(ids: set<string>): ChatMessage -> bool {
    m => Survives(ids, m)
  }

  /** The list after deleting the turn of `messageId`. */
  function AfterDeletion(list: seq<ChatMessage>, messageId: string): seq<ChatMessage> {
    var ids := DeletionIds(list, messageId);
    if ids == {} then list else Seqs.Filter(list, SurvivorOf(ids))
  }

  /** An unknown id deletes nothing; a known one deletes at least that id. */
  lemma DeletionIdsFound(list: seq<ChatMessage>, messageId: string)
    ensures DeletionIds(list, messageId) == {} <==> forall k :: 0 <= k < |list| ==> list[k].id != messageId
    ensures DeletionIds(list, messageId) != {} ==> messageId in DeletionIds(list, messageId)
  {
    var idx := Seqs.IndexOfFirst(list, m => HasIdOf(messageId, m));
    if idx == -1 {
      forall k | 0 <= k < |list| ensures list[k].id != messageId {
        assert !HasIdOf(messageId, list[k]);
      }
    }
  }

  /** No two messages share an id (what random ids give). */
  predicate UniqueIds(list: seq<ChatMessage>) {
    forall i, j :: 0 <= i < j < |list| ==> list[i].id != list[j].id
  }

  /** Where the turn of position `k` starts, as deletion sees it. */
  function DeletionStart(list: seq<ChatMessage>, k: nat): nat
    requires k < |list|
  {
    if list[k].role == Assistant && k > 0 && list[k - 1].role == User then k - 1 else k
  }

  /** Where the turn of position `k` ends, as deletion sees it. */
  function DeletionEnd(list: seq<ChatMessage>, k: nat): nat
    requires k < |list|
  {
    if list[k].role == User && k + 1 < |list| && list[k + 1].role == Assistant then k + 2 else k + 1
  }

  /** With distinct ids, the ids deleted for the message at `k` are those of
      the positions from `DeletionStart` to `DeletionEnd`. */
  lemma DeletionIdsBlock(list: seq<ChatMessage>, k: nat)
    requires UniqueIds(list) && k < |list|
    ensures forall p :: 0 <= p < |list| ==>
      (list[p].id in DeletionIds(list, list[k].id) <==> DeletionStart(list, k) <= p < DeletionEnd(list, k))
  {
    var messageId := list[k].id;
    assert HasIdOf(messageId, list[k]);
    assert Seqs.IndexOfFirst(list, m => HasIdOf(messageId, m)) == k;
  }

  /** A part of the list none of whose ids is deleted survives whole. */
  lemma PartSurvives(part: seq<ChatMessage>, ids: set<string>)
    requires forall p :: 0 <= p < |part| ==> part[p].id !in ids
    ensures Seqs.Filter(part, SurvivorOf(ids)) == part
  {
    Seqs.FilterAllKept(part, SurvivorOf(ids));
  }

  /** The messages before position `lo`, when none of their ids is deleted,
      survive whole. */
  lemma PrefixSurvives(list: seq<ChatMessage>, ids: set<string>, lo: nat)
    requires lo <= |list|
    requires forall p :: 0 <= p < lo ==> list[p].id !in ids
    ensures Seqs.Filter(list[..lo], SurvivorOf(ids)) == list[..lo]
  {
    PartSurvives(list[..lo], ids);
  }

  /** The messages from position `hi` on, when none of their ids is deleted,
      survive whole. */
  lemma SuffixSurvives(list: seq<ChatMessage>, ids: set<string>, hi: nat)
    requires hi <= |list|
    requires forall p :: hi <= p < |list| ==> list[p].id !in ids
    ensures Seqs.Filter(list[hi..], SurvivorOf(ids)) == list[hi..]
  {
    forall p | 0 <= p < |list[hi..]| ensures list[hi..][p].id !in ids {
      assert list[hi..][p] == list[hi + p];
    }
    PartSurvives(list[hi..], ids);
  }

  /** A stretch of the list all of whose ids are deleted disappears. */
  lemma RangeDropped(list: seq<ChatMessage>, ids: set<string>, from: nat, to: nat)
    requires from <= to <= |list|
    requires forall p :: from <= p < to ==> list[p].id in ids
    ensures Seqs.Filter(list[from..to], SurvivorOf(ids)) == []
  {
    var part := list[from..to];
    forall k | 0 <= k < |part| ensures !SurvivorOf(ids)(part[k]) {
      assert part[k] == list[from + k];
    }
    Seqs.FilterNoneKept(part, SurvivorOf(ids));
  }

  /** Filtering out the ids of a block of positions, when no other position
      carries one of them, cuts that block out. */
  lemma FilterBlock(list: seq<ChatMessage>, ids: set<string>, lo: nat, hi: nat)
    requires lo <= hi <= |list|
    requires forall p :: 0 <= p < |list| ==> (list[p].id in ids <==> lo <= p < hi)
    ensures Seqs.Filter(list, SurvivorOf(ids)) == list[..lo] + list[hi..]
  {
    PrefixSurvives(list, ids, lo);
    RangeDropped(list, ids, lo, hi);
    SuffixSurvives(list, ids, hi);
    Seqs.FilterCutsBlock(list, lo, hi, SurvivorOf(ids));
  }

  /** With distinct ids, deleting by the id of position `k` removes exactly
      the messages from `DeletionStart` to `DeletionEnd` (the message, plus
      its partner next to it) and keeps the rest in order. */
  lemma DeletionRemovesBlock(list: seq<ChatMessage>, k: nat)
    requires UniqueIds(list) && k < |list|
    ensures AfterDeletion(list, list[k].id)
      == list[..DeletionStart(list, k)] + list[DeletionEnd(list, k)..]
  {
    DeletionIdsBlock(list, k);
    DeletionIdsFound(list, list[k].id);
    FilterBlock(list, DeletionIds(list, list[k].id), DeletionStart(list, k), DeletionEnd(list, k));
  }

  /** `deleteTurn`'s id: the question's, else the reply's. */
  function TurnId(turn: ChatTurn): Option<string> {
    if turn.user.Some? then Some(turn.user.value.id)
    else if turn.assistant.Some? then Some(turn.assistant.value.id)
    else None
  }

  /** The conversation sent with a question (the `forEach` over `tail`):
      each message as its role name and content. */
  method ContextOf(tail: seq<ChatMessage>) returns (pairs: seq<(string, string)>)
    ensures pairs == ContextPairs(tail)
  {
    pairs := [];
    for k := 0 to |tail|
      invariant |pairs| == k
      invariant forall p :: 0 <= p < k ==> pairs[p] == (ChatStore.RoleName(tail[p].role), tail[p].content)
    {
      var m := tail[k];
      var pair := if m.role == User then ("user", m.content) else ("assistant", m.content);
      pairs := pairs + [pair];
    }
    var expected := ContextPairs(tail);
    assert |pairs| == |expected|;
    assert forall p :: 0 <= p < |pairs| ==> pairs[p] == expected[p];
  }

  // ---------------------------------------------------------------------------
  // the view model

  class ChatViewModel {
    /** `workingList`. */
    var messages: seq<ChatMessage>
    const poemId: int
    const repo: ChatStore.ChatRepository

    /** `init`: the history stored for the poem. */
    constructor (poemId: int, repo: ChatStore.ChatRepository)
      ensures this.poemId == poemId && this.repo == repo
      ensures messages == ChatStore.Decode(Prefs.Get(repo.prefs, ChatStore.Key(poemId)))
    {
      this.poemId := poemId;
      this.repo := repo;
      new;
      messages := repo.LoadHistory(poemId);
    }

    /** `sendMessage` up to the request: a blank text changes nothing;
        otherwise the question is appended and saved, an empty reply
        placeholder is appended, and the pairs sent as conversation context
        are returned.  The random ids and the clock readings are parameters. */
    method SendMessage(userText: string, userId: string, userTime: int, placeholderId: string, placeholderTime: int)
      returns (context: Option<seq<(string, string)>>)
      modifies this, repo
      ensures KotlinText.IsBlank(userText) ==>
        context.None? && messages == old(messages) && repo.prefs == old(repo.prefs)
      ensures !KotlinText.IsBlank(userText) ==>
        var question := ChatMessage(userId, User, userText, userTime);
        messages == old(messages) + [question, ChatMessage(placeholderId, Assistant, "", placeholderTime)]
        && repo.prefs == old(repo.prefs)[ChatStore.Key(poemId) := Prefs.Document(ChatStore.Encode(old(messages) + [question]))]
        && context == Some(ContextPairs(Seqs.TakeLast(old(messages) + [question], ContextSize)))
    {
      if KotlinText.IsBlank(userText) {
        return None;
      }
      var userMsg := ChatMessage(userId, User, userText, userTime);
      messages := messages + [userMsg];
      repo.SaveHistory(poemId, messages);
      var placeholder := ChatMessage(placeholderId, Assistant, "", placeholderTime);
      messages := messages + [placeholder];
      assert Seqs.DropLast(messages, 1) == old(messages) + [userMsg];
      var tail := Seqs.TakeLast(Seqs.DropLast(messages, 1), ContextSize);
      var pairs := ContextOf(tail);
      context := Some(pairs);
    }

    /** Appending one non-empty token to the reply being streamed. */
    method AppendToken(token: string)
      modifies this
      ensures messages == AppendToLast(old(messages), token)
    {
      if |messages| > 0 && messages[|messages| - 1].role == Assistant {
        var last := messages[|messages| - 1];
        messages := messages[|messages| - 1 := last.(content := last.content + token)];
      }
    }

    /** One line of the read loop: the token it carries, if any, is
        appended to the reply; the result says whether it was `[DONE]`. */
    method ConsumeLine(line: string, extract: string -> Option<string>) returns (stop: bool)
      modifies this
      ensures stop == ApiClient.IsDone(line)
      ensures messages == AppendToLast(old(messages), Concat(ApiClient.LineTokens(line, extract)))
    {
      var token;
      stop, token := ApiClient.HandleLine(line, extract);
      if token.Some? {
        ConcatSingle(token.value);
        AppendToken(token.value);
      } else {
        AppendToLastTwice(messages, "", "");
      }
    }

    /** The read loop: each token is appended to the reply as it arrives;
        `readFailure` is the message of the exception the read after the
        last line throws, if it throws, and is the result unless a `[DONE]`
        line came first. */
    method ReadBody(source: seq<string>, readFailure: Option<string>, extract: string -> Option<string>)
      returns (failure: Option<string>)
      modifies this
      ensures messages == AppendToLast(old(messages), Concat(ApiClient.Delivered(source, extract)))
      ensures failure == if ApiClient.HasDone(source) then None else readFailure
    {
      ghost var start := messages;
      ghost var tokens: seq<string> := [];
      AppendToLastTwice(start, "", "");
      var i: nat := 0;
      ApiClient.ReadingStarts(source, extract);
      while true
        invariant ApiClient.Reading(source, i, tokens, extract)
        invariant messages == AppendToLast(start, Concat(tokens))
        decreases |source| - i
      {
        // a cancelled call stops here before the next read
        if i == |source| {
          ApiClient.EndDeliversNothing(source, extract);
          Seqs.ConcatEmpty(tokens);
          return readFailure;
        }
        ghost var more := ApiClient.LineTokens(source[i], extract);
        ghost var before := messages;
        var stop := ConsumeLine(source[i], extract);
        if stop {
          ApiClient.DoneDeliversNothing(source, i, extract);
          AppendToLastTwice(before, "", "");
          Seqs.ConcatEmpty(tokens);
          return None;
        }
        ApiClient.ReadingAdvance(source, i, extract, tokens, more);
        ConcatAppend(tokens, more);
        AppendToLastTwice(start, Concat(tokens), Concat(more));
        tokens := tokens + more;
        i := i + 1;
      }
    }

    /** The `try` block of the streaming half of `sendMessage`: the reply's
        tokens go into the last message as they arrive; the result is the
        message of the exception it ends with, unless the call was cancelled. */
    method RunExchange(exchange: Exchange, extract: string -> Option<string>) returns (failure: Option<string>)
      modifies this
      ensures messages == AppendToLast(old(messages), Concat(StreamTokens(exchange, extract)))
      ensures failure == StreamFailure(exchange)
    {
      AppendToLastTwice(messages, "", "");
      match exchange {
        case ConnectFailed(message) =>
          failure := Some(message.GetOr(UnknownError));
        case Responded(status, body, end) =>
          if !ApiClient.IsSuccessful(status) {
            failure := if end.Cancelled? then None else Some(ApiClient.ApiError(status));
          } else if body.Some? {
            var readFailure := if end.ReadFailed? then Some(end.message.GetOr(UnknownError)) else None;
            failure := ReadBody(body.value, readFailure, extract);
          } else {
            failure := None;
          }
      }
    }

    /** The streaming half of `sendMessage`: the reply's tokens go into the
        last message; an exception that is not a cancellation replaces its
        content by the failure text (the exception's own message, not
        sanitised); the list is saved whatever happened. */
    method ReceiveReply(exchange: Exchange, extract: string -> Option<string>)
      modifies this, repo
      ensures messages == Outcome(old(messages), exchange, extract)
      ensures repo.prefs == old(repo.prefs)[ChatStore.Key(poemId) := Prefs.Document(ChatStore.Encode(messages))]
    {
      var failure := RunExchange(exchange, extract);
      if failure.Some? && |messages| > 0 && messages[|messages| - 1].role == Assistant {
        var last := messages[|messages| - 1];
        messages := messages[|messages| - 1 := last.(content := FailurePrefix + failure.value)];
      }
      repo.SaveHistory(poemId, messages);
    }

    /** `deleteTurnByMessageId` (also the public `deleteMessage`): an unknown
        id changes nothing; otherwise the message and its partner are removed
        and the list is saved. */
    method DeleteTurnByMessageId(messageId: string)
      modifies this, repo
      ensures messages == AfterDeletion(old(messages), messageId)
      ensures repo.prefs == if DeletionIds(old(messages), messageId) == {} then old(repo.prefs)
        else old(repo.prefs)[ChatStore.Key(poemId) := Prefs.Document(ChatStore.Encode(messages))]
    {
      var idx := Seqs.IndexOfFirst(messages, m => HasIdOf(messageId, m));
      if idx == -1 {
        return;
      }
      var toDeleteIds: set<string> := {};
      var target := messages[idx];
      toDeleteIds := toDeleteIds + {target.id};
      if target.role == User {
        if idx + 1 < |messages| && messages[idx + 1].role == Assistant {
          toDeleteIds := toDeleteIds + {messages[idx + 1].id};
        }
      } else {
        if idx - 1 >= 0 && messages[idx - 1].role == User {
          toDeleteIds := toDeleteIds + {messages[idx - 1].id};
        }
      }
      assert toDeleteIds == DeletionIds(messages, messageId);
      messages := Seqs.Filter(messages, SurvivorOf(toDeleteIds));
      repo.SaveHistory(poemId, messages);
    }

    /** `deleteTurn`: deletes by the question's id, else the reply's; a turn
        with neither changes nothing. */
    method DeleteTurn(turn: ChatTurn)
      modifies this, repo
      ensures TurnId(turn).None? ==> messages == old(messages) && repo.prefs == old(repo.prefs)
      ensures TurnId(turn).Some? ==> messages == AfterDeletion(old(messages), TurnId(turn).value)
      ensures TurnId(turn).Some? ==>
        repo.prefs == if DeletionIds(old(messages), TurnId(turn).value) == {} then old(repo.prefs)
          else old(repo.prefs)[ChatStore.Key(poemId) := Prefs.Document(ChatStore.Encode(messages))]
    {
      var id := TurnId(turn);
      if id.None? {
        return;
      }
      DeleteTurnByMessageId(id.value);
    }
  }

  // ---------------------------------------------------------------------------
  // properties of the reply

  /** After a question is sent, the reply lands in the placeholder: a reply
      without failure makes its content exactly the delivered tokens; every
      earlier message, the question included, is untouched. */
  lemma ReplyFillsPlaceholder(before: seq<ChatMessage>, question: ChatMessage, placeholder: ChatMessage,
                              exchange: Exchange, extract: string -> Option<string>)
    requires placeholder.role == Assistant && placeholder.content == ""
    requires StreamFailure(exchange).None?
    ensures var list := before + [question, placeholder];
      Outcome(list, exchange, extract)
        == before + [question, placeholder.(content := Concat(StreamTokens(exchange, extract)))]
  {
    var list := before + [question, placeholder];
    var text := Concat(StreamTokens(exchange, extract));
    assert "" + text == text;
    assert list[|list| - 1 := placeholder.(content := text)] == before + [question, placeholder.(content := text)];
  }

  /** A failure that is not a cancellation leaves the failure text, and only
      it, in the placeholder, whatever had been streamed. */
  lemma FailureOverwrites(before: seq<ChatMessage>, question: ChatMessage, placeholder: ChatMessage,
                          exchange: Exchange, extract: string -> Option<string>)
    requires placeholder.role == Assistant
    requires StreamFailure(exchange).Some?
    ensures var list := before + [question, placeholder];
      Outcome(list, exchange, extract)
        == before + [question, placeholder.(content := FailurePrefix + StreamFailure(exchange).value)]
  {
    var list := before + [question, placeholder];
    var after := AppendToLast(list, Concat(StreamTokens(exchange, extract)));
    assert after[..|after| - 1] == before + [question];
    assert after[|after| - 1].role == Assistant;
    var text := FailurePrefix + StreamFailure(exchange).value;
    assert after[|after| - 1 := after[|after| - 1].(content := text)]
        == before + [question, placeholder.(content := text)];
  }

  /** A cancelled reply keeps what had been streamed: never a failure text. */
  lemma CancelKeepsPartial(status: int, body: Option<seq<string>>, list: seq<ChatMessage>, extract: string -> Option<string>)
    ensures var exchange := Responded(status, body, Cancelled);
      Outcome(list, exchange, extract) == AppendToLast(list, Concat(StreamTokens(exchange, extract)))
  {
  }

  /** An unsuccessful status that is not cancelled shows "请求失败：API error: "
      and the status, and nothing streamed. */
  lemma StatusFailureText(status: int, body: Option<seq<string>>, end: StreamEnd)
    requires !ApiClient.IsSuccessful(status) && !end.Cancelled?
    ensures StreamFailure(Responded(status, body, end)) == Some(ApiClient.ApiError(status))
    ensures StreamTokens(Responded(status, body, end), (s: string) => None) == []
  {
  }

  /** The context sent with a question ends with that question, holds at most
      ten messages, and is the tail of the history including it. */
  lemma ContextEndsWithQuestion(before: seq<ChatMessage>, question: ChatMessage)
    requires question.role == User
    ensures var pairs := ContextPairs(Seqs.TakeLast(before + [question], ContextSize));
      1 <= |pairs| <= ContextSize && pairs[|pairs| - 1] == ("user", question.content)
    ensures var tail := Seqs.TakeLast(before + [question], ContextSize);
      tail == (before + [question])[|before| + 1 - |tail|..]
  {
  }
}
