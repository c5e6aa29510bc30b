/** The pure parts of the chat list adapter (`TurnAdapter`): when two turns
    are the same row, what a partial update carries, what a bound row shows,
    which assistant texts are coloured as errors, and where the highlight of
    newly streamed text starts. */
module TurnAdapter {
  import opened Wrappers
  import KotlinText
  import ApiClient
  import opened ChatMessages
  import ChatSession

  type ChatTurn = ChatSession.ChatTurn

  // ---------------------------------------------------------------------------
  // item identity

  /** The id of one side of a turn, `""` when the side is missing. */
  function IdOf(side: Option<ChatMessage>): string {
    if side.Some? then side.value.id else ""
  }

  /** The key `areItemsTheSame` compares: `userId|assistantId`. */
  function TurnKey(t: ChatTurn): string {
    IdOf(t.user) + "|" + IdOf(t.assistant)
  }

  /** `DIFF.areItemsTheSame`. */
  predicate AreItemsTheSame(o: ChatTurn, n: ChatTurn) {
    TurnKey(o) == TurnKey(n)
  }

  /** No `|` in the text, so the separator of a key is found unambiguously. */
  predicate NoBar(s: string) {
    forall k :: 0 <= k < |s| ==> s[k] != '|'
  }

  /** Turns whose sides have the same ids are the same row. */
  lemma SameIdsSameItem(o: ChatTurn, n: ChatTurn)
    requires IdOf(o.user) == IdOf(n.user) && IdOf(o.assistant) == IdOf(n.assistant)
    ensures AreItemsTheSame(o, n)
  {
  }

  /** In a key `u|a` with no `|` in `u`, the first `|` is at position `|u|`. */
  lemma FirstBar(u: string, a: string)
    requires NoBar(u)
    ensures (u + "|" + a)[|u|] == '|'
    ensures forall k :: 0 <= k < |u| ==> (u + "|" + a)[k] != '|'
  {
  }

  /** Two keys `u1|a1` and `u2|a2` with no `|` in the user ids are equal only
      when both parts are. */
  lemma KeyParts(u1: string, a1: string, u2: string, a2: string)
    requires NoBar(u1) && NoBar(u2)
    requires u1 + "|" + a1 == u2 + "|" + a2
    ensures u1 == u2 && a1 == a2
  {
    var k1, k2 := u1 + "|" + a1, u2 + "|" + a2;
    FirstBar(u1, a1);
    FirstBar(u2, a2);
    assert |u1| == |u2|;
    assert u1 == k1[..|u1|] && u2 == k2[..|u2|];
    assert a1 == k1[|u1| + 1..] && a2 == k2[|u2| + 1..];
  }

  /** With user ids free of `|`, two turns are the same row exactly when the
      ids of both sides agree, a missing side counting as the id `""`. */
  lemma SameItemIff(o: ChatTurn, n: ChatTurn)
    requires NoBar(IdOf(o.user)) && NoBar(IdOf(n.user))
    ensures AreItemsTheSame(o, n) <==> IdOf(o.user) == IdOf(n.user) && IdOf(o.assistant) == IdOf(n.assistant)
  {
    if AreItemsTheSame(o, n) {
      KeyParts(IdOf(o.user), IdOf(o.assistant), IdOf(n.user), IdOf(n.assistant));
    }
  }

  /** A user id containing `|` can make different turns look like one row:
      the user id "a|" alone and the user id "a" answered by "|" share the key "a||". */
  lemma BarInIdCollides(o: ChatTurn, n: ChatTurn)
    requires o.user.Some? && o.user.value.id == "a|" && o.assistant.None?
    requires n.user.Some? && n.user.value.id == "a" && n.assistant.Some? && n.assistant.value.id == "|"
    ensures AreItemsTheSame(o, n) && IdOf(o.user) != IdOf(n.user)
  {
    assert TurnKey(o) == "a||" && TurnKey(n) == "a||";
  }

  // ---------------------------------------------------------------------------
  // change payload

  /** `TurnPayload`: the new text of each side that changed, and whether the
      typing indicator should run. */
  datatype TurnPayload = TurnPayload(userText: Option<string>, assistantText: Option<string>, assistantTyping: bool)

  /** The content of one side of a turn, `""` when the side is missing. */
  function SideText(side: Option<ChatMessage>): string {
    if side.Some? then side.value.content else ""
  }

  /** `newItem.user?.content`: the content of a side, if the side exists. */
  function ContentIfAny(side: Option<ChatMessage>): Option<string> {
    if side.Some? then Some(side.value.content) else None
  }

  /** `DIFF.getChangePayload`. */
  function ChangePayload(o: ChatTurn, n: ChatTurn): Option<TurnPayload> {
    var userChanged := SideText(o.user) != SideText(n.user);
    var asstChanged := SideText(o.assistant) != SideText(n.assistant);
    if !userChanged && !asstChanged then None
    else Some(TurnPayload(
      if userChanged then ContentIfAny(n.user) else None,
      if asstChanged then ContentIfAny(n.assistant) else None,
      n.assistant.None? || KotlinText.IsBlank(n.assistant.value.content)))
  }

  /** No payload exactly when neither side's content changed; a payload
      carries a side's new text only when that side changed, and carries it
      whenever the changed side still exists; it asks for the typing
      indicator exactly when the new reply is missing or blank. */
  lemma ChangePayloadSpec(o: ChatTurn, n: ChatTurn)
    ensures ChangePayload(o, n).None? <==>
      SideText(o.user) == SideText(n.user) && SideText(o.assistant) == SideText(n.assistant)
    ensures ChangePayload(o, n).Some? ==>
      var p := ChangePayload(o, n).value;
      (p.userText.Some? ==> SideText(o.user) != SideText(n.user) && p.userText.value == SideText(n.user))
      && (SideText(o.user) != SideText(n.user) && n.user.Some? ==> p.userText.Some?)
      && (p.assistantText.Some? ==> SideText(o.assistant) != SideText(n.assistant) && p.assistantText.value == SideText(n.assistant))
      && (SideText(o.assistant) != SideText(n.assistant) && n.assistant.Some? ==> p.assistantText.Some?)
      && (p.assistantTyping <==> n.assistant.None? || KotlinText.IsBlank(SideText(n.assistant)))
  {
  }

  // ---------------------------------------------------------------------------
  // what a row shows

  /** `isErrorMessage`: the trimmed text starts with one of the failure openings. */
  predicate IsErrorMessage(text: string) {
    var t := KotlinText.Trim(text);
    KotlinText.StartsWith(t, "请求失败") || KotlinText.StartsWith(t, "API error") || KotlinText.StartsWith(t, "Error")
  }

  /** The shown assistant text and whether it is in the error colour. */
  datatype AssistantView = AssistantView(text: string, error: bool)

  /** What a row shows: the user text (None when hidden), the assistant text
      (None when hidden) and whether the typing indicator runs. */
  datatype TurnView = TurnView(user: Option<string>, assistant: Option<AssistantView>, typing: bool)

  /** The assistant part of a row for a reply text: a blank reply is hidden
      behind the typing indicator, any other is shown, in the error colour
      when it reads as a failure. */
  function ShowReply(text: string): (Option<AssistantView>, bool) {
    if KotlinText.IsBlank(text) then (None, true)
    else (Some(AssistantView(text, IsErrorMessage(text))), false)
  }

  /** `TurnVH.bind`. */
  function Bind(t: ChatTurn): TurnView {
    var user := ContentIfAny(t.user);
    if t.assistant.None? then TurnView(user, None, false)
    else
      var (a, typing) := ShowReply(t.assistant.value.content);
      TurnView(user, a, typing)
  }

  /** `TurnVH.applyPartial`: only the sides the payload carries are redrawn;
      the typing indicator follows the new reply text, not the payload's flag. */
  function ApplyPartial(v: TurnView, p: TurnPayload): TurnView {
    var user := if p.userText.Some? then p.userText else v.user;
    if p.assistantText.None? then v.(user := user)
    else
      var (a, typing) := ShowReply(p.assistantText.value);
      TurnView(user, a, typing)
  }

  /** A partial update shows what a full bind of the new turn shows, as long
      as neither side appears or disappears; without a payload the two turns
      show the same. */
  lemma PartialMatchesBind(o: ChatTurn, n: ChatTurn)
    requires o.user.Some? == n.user.Some? && o.assistant.Some? == n.assistant.Some?
    ensures ChangePayload(o, n).Some? ==> ApplyPartial(Bind(o), ChangePayload(o, n).value) == Bind(n)
    ensures ChangePayload(o, n).None? ==> Bind(o) == Bind(n)
  {
  }

  /** Rows keyed by non-empty ids free of `|` are the same item only when
      each side is present in both or in neither, so a partial update of such
      a row always draws what a full bind would. */
  lemma SameItemPartialMatchesBind(o: ChatTurn, n: ChatTurn)
    requires o.user.Some? ==> o.user.value.id != "" && NoBar(o.user.value.id)
    requires n.user.Some? ==> n.user.value.id != "" && NoBar(n.user.value.id)
    requires o.assistant.Some? ==> o.assistant.value.id != ""
    requires n.assistant.Some? ==> n.assistant.value.id != ""
    requires AreItemsTheSame(o, n)
    ensures ChangePayload(o, n).Some? ==> ApplyPartial(Bind(o), ChangePayload(o, n).value) == Bind(n)
  {
    SameItemIff(o, n);
    PartialMatchesBind(o, n);
  }

  /** The failure text the chat screen writes into a reply is shown as an error. */
  lemma ChatFailureShownAsError(message: string)
    ensures IsErrorMessage(ChatSession.FailurePrefix + message)
  {
    var p := ChatSession.FailurePrefix;
    KotlinText.TrimKeepsPrefix(p, message);
    var t := KotlinText.Trim(p + message);
    assert t[..|p|] == p;
    assert t[..4] == p[..4] == "请求失败";
  }

  /** A text opening with "API error:" reads as an error, whatever follows. */
  lemma ApiErrorOpeningShownAsError(m: string)
    ensures IsErrorMessage("API error:" + m)
  {
    var p := "API error:";
    KotlinText.TrimKeepsPrefix(p, m);
    var t := KotlinText.Trim(p + m);
    assert t[..|p|] == p;
    assert t[..9] == p[..9] == "API error";
  }

  /** The message of an unsuccessful response reads as an error too. */
  lemma ApiErrorShownAsError(status: int)
    ensures IsErrorMessage(ApiClient.ApiError(status))
  {
    var m := " " + KotlinText.IntToString(status);
    assert "API error: " == "API error:" + " ";
    assert ApiClient.ApiError(status) == "API error:" + m;
    ApiErrorOpeningShownAsError(m);
  }

  // ---------------------------------------------------------------------------
  // highlight of streamed text

  /** The highlight start `applyPartial` computes from the text shown before. */
  function HighlightStart(previous: string, newText: string): Option<nat> {
    if |newText| > |previous| then Some(|previous|) else None
  }

  /** The range `renderAssistantText` colours: from the start to the end of
      the text, and only when the start lies inside the text. */
  function HighlightRange(newText: string, start: Option<nat>): Option<(nat, nat)> {
    if start.Some? && start.value < |newText| then Some((start.value, |newText|)) else None
  }

  /** A highlight is drawn exactly when the text grew, and it then covers
      exactly the characters past the old length; when the new text extends
      the old one, those are the newly streamed characters. */
  lemma HighlightCoversGrowth(previous: string, newText: string)
    ensures HighlightRange(newText, HighlightStart(previous, newText)).Some? <==> |newText| > |previous|
    ensures |newText| > |previous| ==>
      HighlightRange(newText, HighlightStart(previous, newText)) == Some((|previous|, |newText|))
    ensures |newText| > |previous| && KotlinText.StartsWith(newText, previous) ==>
      newText == previous + newText[|previous|..]
  {
  }
}
