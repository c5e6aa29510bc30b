# Poems (Android) — a Dafny model of its core

Poems is an Android app for reading classical Chinese poems. It loads a bundled poem file, parses it into poems and lets the reader search them, browse by tag, mark favourites and change the text size. It also has two AI features driven by an OpenAI-style chat-completions endpoint:

- **Chat.** The reader asks questions about a poem and the reply streams in token by token as server-sent events. The conversation is kept per poem and shown as question/answer turns. A turn can be deleted as a whole.
- **Dictation.** The model generates fill-in-the-blank questions about the poem, and each typed answer is graded. The grade ignores whitespace and punctuation. An answer within a small edit distance counts as typos, not wholly wrong.

This project models that core in Dafny, file by file, and proves what the code promises:

- `grading.dfy`, `edit_distance.dfy`, `dictation_text.dfy`: the grade of an answer, the edit-distance table filled in place, text normalisation and the blank shown in place of the answer.
- `question_parser.dfy`: extracting questions from the model's reply.
- `dictation_session.dfy`: the dictation view model, with questions as objects whose input is updated in place.
- `dictation_adapter.dfy`: the blank and the coloured answer drawn by the dictation list.
- `dictation_repository.dfy`, `chat_repository.dfy`: per-poem storage as JSON text in the preference store, with round-trip lemmas.
- `api_client.dfy`: the request rules and the server-sent-event loop of the API client.
- `chat_session.dfy`: the chat view model — sending, streaming a reply into its placeholder, failure and cancellation, grouping into turns and deleting a turn.
- `turn_adapter.dfy`: the chat list's item identity, change payloads, rendering and the highlight of new text.
- `error_formatter.dfy`: hiding the API host from error messages.
- `poem_parser.dfy`: the poem file format.
- `poem_repository.dfy`: the poem repository — favourites, search, tags, look-up by id.
- `poem_detail.dfy`: the text-size state machine of the detail screen.

A few modules stand in for library behaviour the Kotlin code calls, and state it once for everyone: `kotlin_text.dfy` (trim, blank test, split, case-insensitive replace, `Int.toString`), `json.dfy` (the JSON values `org.json` builds and the text they are written as), `prefs.dfy` (the `SharedPreferences` store as a map), `seqs.dfy` (generic sequence lemmas) and `wrappers.dfy` (`Option`). `chat_message.dfy` holds the chat message record and its role.

Stateful objects become classes whose fields the methods update: the view models, the repositories and the dictation question. Loops become methods with invariants proved against specification functions: the edit-distance table, normalisation, the blank, the stream loop, the parser loops and the turn grouping. Pure code becomes functions and lemmas.

## Model

| member | source | states |
|---|---|---|
| ApiClient.RequestTemperature | app/src/main/java/com/jerryz/poems/ui/ai/AiApiClient.kt:32 | a call without a temperature sends 0.3; otherwise the caller's value is sent |
| ApiClient.CompletionCases | app/src/main/java/com/jerryz/poems/ui/ai/AiApiClient.kt:43-49 | an unsuccessful status fails with that status before the body is looked at; a successful reply with no `choices`, or an empty array, gives ""; a first choice with a `message` object gives that message's `content` |
| ApiClient.ClassifyLineCases | app/src/main/java/com/jerryz/poems/ui/ai/AiApiClient.kt:81-84 | blank lines and lines not starting with `data:` are skipped; any other line is `data:` followed by its rest, its payload is that rest trimmed, and it ends the stream exactly when the payload is `[DONE]` |
| ApiClient.DeltaTakesPrecedence | app/src/main/java/com/jerryz/poems/ui/ai/AiApiClient.kt:89-91 | the token is `delta.content` whenever `delta` is an object, even an empty one; `message.content` is read only when there is no `delta` object; with neither there is no token |
| ApiClient.DoneDeliversNothing | app/src/main/java/com/jerryz/poems/ui/ai/AiApiClient.kt:84 | a `[DONE]` line carries no token and nothing from it on is delivered |
| ApiClient.ReadingStarts | app/src/main/java/com/jerryz/poems/ui/ai/AiApiClient.kt:79 | before the first line no token has been delivered and all of the stream's tokens remain |
| ApiClient.ReadingAdvance | app/src/main/java/com/jerryz/poems/ui/ai/AiApiClient.kt:80-97 | a line other than `[DONE]` hands on exactly its own tokens, and reading goes on with the next line |
| ApiClient.EndDeliversNothing | app/src/main/java/com/jerryz/poems/ui/ai/AiApiClient.kt:80 | once no line is left nothing more is delivered and no `[DONE]` remains |
| ApiClient.HandleLine | app/src/main/java/com/jerryz/poems/ui/ai/AiApiClient.kt:80-97 | one line stops the loop exactly when it is `[DONE]`, and hands on a token exactly when its data payload yields a non-empty one |
| ApiClient.ReadLines | app/src/main/java/com/jerryz/poems/ui/ai/AiApiClient.kt:79-98 | the tokens handed on are those of the lines in order up to the first `[DONE]`; a read failure ends the call only when no `[DONE]` was reached |
| ApiClient.StreamCompletion | app/src/main/java/com/jerryz/poems/ui/ai/AiApiClient.kt:76-99 | an unsuccessful status ends with "API error: <status>" and no token; a response without a body delivers nothing and does not fail; otherwise the tokens are those of the body's lines in order up to `[DONE]` |
| ApiClient.HasDoneIff | app/src/main/java/com/jerryz/poems/ui/ai/AiApiClient.kt:84 | the stream holds a `[DONE]` exactly when one of its lines is `data: [DONE]` up to trimming |
| ApiClient.DeliveredConcat | app/src/main/java/com/jerryz/poems/ui/ai/AiApiClient.kt:78-98 | tokens come out in the order of their lines: a stream without `[DONE]` in its first part delivers the first part's tokens, then the rest's |
| ApiClient.DoneStops | app/src/main/java/com/jerryz/poems/ui/ai/AiApiClient.kt:84 | after a `[DONE]` line no later line is delivered |
| ApiClient.IgnoredLineAlone | app/src/main/java/com/jerryz/poems/ui/ai/AiApiClient.kt:81-82 | a blank or non-`data:` line delivers nothing and does not end the stream |
| ApiClient.IgnoredLineChangesNothing | app/src/main/java/com/jerryz/poems/ui/ai/AiApiClient.kt:81-82 | inserting a blank or non-`data:` line anywhere before `[DONE]` leaves the delivered tokens unchanged |
| ApiClient.DeliveredTokensFromData | app/src/main/java/com/jerryz/poems/ui/ai/AiApiClient.kt:82-96 | every delivered token is non-empty and is the token of the payload of some `data:` line |
| ChatStore.Key | app/src/main/java/com/jerryz/poems/ui/ai/ChatRepository.kt:53 | the key is "chat_history_" followed by the poem id |
| ChatStore.KeyInjective | app/src/main/java/com/jerryz/poems/ui/ai/ChatRepository.kt:53 | two poems share a key only when they are the same poem |
| ChatStore.RoleRoundTrip | app/src/main/java/com/jerryz/poems/ui/ai/ChatRepository.kt:22-37 | a written role reads back as itself, and only the text "user" reads as the user role |
| ChatStore.DecodeItem | app/src/main/java/com/jerryz/poems/ui/ai/ChatRepository.kt:19 | an element of the stored array yields a message exactly when it is a JSON object |
| ChatStore.LoadingStep | app/src/main/java/com/jerryz/poems/ui/ai/ChatRepository.kt:18-26 | an object element adds its message to the end of the list being read |
| ChatStore.LoadingDone | app/src/main/java/com/jerryz/poems/ui/ai/ChatRepository.kt:18-26 | after the last element the list read is the message of every element, in order |
| ChatStore.ReadArray | app/src/main/java/com/jerryz/poems/ui/ai/ChatRepository.kt:16-29 | an array of objects reads as one message per element, in order; an array with any other element reads as the empty history |
| ChatStore.ChatRepository.constructor | app/src/main/java/com/jerryz/poems/ui/ai/ChatRepository.kt:8-11 | the repository stands on the given preference store |
| ChatStore.ChatRepository.LoadHistory | app/src/main/java/com/jerryz/poems/ui/ai/ChatRepository.kt:13-30 | the history is what the value stored under the poem's key decodes to |
| ChatStore.ChatRepository.SaveHistory | app/src/main/java/com/jerryz/poems/ui/ai/ChatRepository.kt:32-45 | the messages, in order, are written under the poem's key and no other key changes |
| ChatStore.ChatRepository.DeleteMessage | app/src/main/java/com/jerryz/poems/ui/ai/ChatRepository.kt:47-51 | the poem's history is rewritten without the messages carrying that id, the others kept in order |
| ChatStore.DecodeEncodeMessage | app/src/main/java/com/jerryz/poems/ui/ai/ChatRepository.kt:20-39 | the id, role, content and timestamp of a message read back unchanged |
| ChatStore.FilterMapEncode | app/src/main/java/com/jerryz/poems/ui/ai/ChatRepository.kt:13-45 | reading back the saved array yields the saved messages |
| ChatStore.DecodeEncode | app/src/main/java/com/jerryz/poems/ui/ai/ChatRepository.kt:13-45 | loading what was saved gives back the same messages in the same order |
| ChatStore.DecodeFailures | app/src/main/java/com/jerryz/poems/ui/ai/ChatRepository.kt:15-29 | a missing key, unparsable text, a value that is not an array, or an element that is not an object all load as the empty history |
| ChatStore.SaveIsolated | app/src/main/java/com/jerryz/poems/ui/ai/ChatRepository.kt:53 | saving one poem's history leaves what every other poem loads unchanged |
| ChatStore.DeleteMessageLoads | app/src/main/java/com/jerryz/poems/ui/ai/ChatRepository.kt:47-51 | after deleting an id, the history loads without that id, with every other message kept, in order |
| ChatSession.AppendToLast | app/src/main/java/com/jerryz/poems/ui/ai/AiChatViewModel.kt:180-185 | only the last message may change: when it is a reply the text is appended to its content; otherwise the list is unchanged |
| ChatSession.ReplaceLast | app/src/main/java/com/jerryz/poems/ui/ai/AiChatViewModel.kt:196-201 | only the last message may change: when it is a reply its content becomes the text; otherwise the list is unchanged |
| ChatSession.AppendToLastTwice | app/src/main/java/com/jerryz/poems/ui/ai/AiChatViewModel.kt:179-186 | appending tokens one after another equals appending their concatenation once, and an empty token changes nothing |
| ChatSession.ContextPairs | app/src/main/java/com/jerryz/poems/ui/ai/AiChatViewModel.kt:153-155 | one pair per message, in order: "user" or "assistant" with the message's content |
| ChatSession.ContextOf | app/src/main/java/com/jerryz/poems/ui/ai/AiChatViewModel.kt:152-155 | the loop builds exactly those pairs |
| ChatSession.BuildTurns | app/src/main/java/com/jerryz/poems/ui/ai/AiChatViewModel.kt:235-251 | the loop builds the turns of the list (see TurnsProperties) |
| ChatSession.FlattenTurnsFrom | app/src/main/java/com/jerryz/poems/ui/ai/AiChatViewModel.kt:238-249 | the turns from a position, flattened, give back the rest of the list |
| ChatSession.TurnsFromWellShaped | app/src/main/java/com/jerryz/poems/ui/ai/AiChatViewModel.kt:238-249 | every turn built is non-empty: a question with an optional reply, or a reply on its own |
| ChatSession.TurnsFromEager | app/src/main/java/com/jerryz/poems/ui/ai/AiChatViewModel.kt:240-243 | a question takes the reply that follows it, so a question without a reply is never followed by a lone reply |
| ChatSession.TurnsProperties | app/src/main/java/com/jerryz/poems/ui/ai/AiChatViewModel.kt:235-251 | flattening the turns reproduces the list, each turn is a question with its following reply (or none) or a lone reply, and no question is left unpaired before a reply |
| ChatSession.DeletionIdsFound | app/src/main/java/com/jerryz/poems/ui/ai/AiChatViewModel.kt:51-55 | an unknown id deletes nothing, and a known one deletes at least itself |
| ChatSession.DeletionIdsBlock | app/src/main/java/com/jerryz/poems/ui/ai/AiChatViewModel.kt:53-66 | with distinct ids, the ids deleted are those of the target and its adjacent partner: the following reply of a question or the preceding question of a reply |
| ChatSession.PartSurvives | app/src/main/java/com/jerryz/poems/ui/ai/AiChatViewModel.kt:68 | a part of the list with no deleted id is kept whole |
| ChatSession.PrefixSurvives | app/src/main/java/com/jerryz/poems/ui/ai/AiChatViewModel.kt:68 | the messages before the deleted block are kept whole |
| ChatSession.SuffixSurvives | app/src/main/java/com/jerryz/poems/ui/ai/AiChatViewModel.kt:68 | the messages after the deleted block are kept whole |
| ChatSession.RangeDropped | app/src/main/java/com/jerryz/poems/ui/ai/AiChatViewModel.kt:68 | a stretch whose ids are all deleted disappears |
| ChatSession.FilterBlock | app/src/main/java/com/jerryz/poems/ui/ai/AiChatViewModel.kt:68 | removing the ids of one block of positions leaves the messages before it followed by those after it |
| ChatSession.DeletionRemovesBlock | app/src/main/java/com/jerryz/poems/ui/ai/AiChatViewModel.kt:50-70 | with distinct ids, deleting by the id at a position removes exactly that message and its adjacent partner, and keeps the rest in order |
| ChatSession.ChatViewModel.constructor | app/src/main/java/com/jerryz/poems/ui/ai/AiChatViewModel.kt:40-44 | the message list starts as the poem's stored history |
| ChatSession.ChatViewModel.SendMessage | app/src/main/java/com/jerryz/poems/ui/ai/AiChatViewModel.kt:75-155 | a blank text changes nothing; otherwise the question and then an empty reply are appended, the list with the question is saved, and the context sent is the last ten messages including the question |
| ChatSession.ChatViewModel.AppendToken | app/src/main/java/com/jerryz/poems/ui/ai/AiChatViewModel.kt:179-186 | a token is appended to the last message when it is a reply, and nothing else changes |
| ChatSession.ChatViewModel.ConsumeLine | app/src/main/java/com/jerryz/poems/ui/ai/AiChatViewModel.kt:167-191 | one line ends the loop exactly when it is `[DONE]` and otherwise appends its token, if any, to the reply |
| ChatSession.ChatViewModel.ReadBody | app/src/main/java/com/jerryz/poems/ui/ai/AiChatViewModel.kt:165-192 | the reply grows by the stream's tokens up to `[DONE]`, in order; a read failure surfaces only when no `[DONE]` was read |
| ChatSession.ChatViewModel.RunExchange | app/src/main/java/com/jerryz/poems/ui/ai/AiChatViewModel.kt:158-193 | the reply grows by the tokens received, and the call reports the failure that ends it, if any |
| ChatSession.ChatViewModel.ReceiveReply | app/src/main/java/com/jerryz/poems/ui/ai/AiChatViewModel.kt:157-210 | the list becomes the reply received, overwritten by the failure text when a failure that is not a cancellation occurs, and it is saved in any case |
| ChatSession.ChatViewModel.DeleteTurnByMessageId | app/src/main/java/com/jerryz/poems/ui/ai/AiChatViewModel.kt:46-73 | the list loses the target and its adjacent partner; an unknown id changes nothing and saves nothing |
| ChatSession.ChatViewModel.DeleteTurn | app/src/main/java/com/jerryz/poems/ui/ai/AiChatViewModel.kt:253-256 | a turn is deleted by its question's id, else its reply's; a turn with neither changes nothing |
| ChatSession.ReplyFillsPlaceholder | app/src/main/java/com/jerryz/poems/ui/ai/AiChatViewModel.kt:179-186 | without failure the placeholder's content becomes exactly the tokens received, and every earlier message is untouched |
| ChatSession.FailureOverwrites | app/src/main/java/com/jerryz/poems/ui/ai/AiChatViewModel.kt:194-204 | a failure that is not a cancellation leaves only "请求失败：" and the exception's message ("未知错误" when it has none) in the placeholder, whatever had been streamed |
| ChatSession.CancelKeepsPartial | app/src/main/java/com/jerryz/poems/ui/ai/AiChatViewModel.kt:194-195 | a cancelled reply keeps what had been streamed and gets no failure text |
| ChatSession.StatusFailureText | app/src/main/java/com/jerryz/poems/ui/ai/AiChatViewModel.kt:163-200 | an unsuccessful status reads as "API error: <status>" and streams nothing |
| ChatSession.ContextEndsWithQuestion | app/src/main/java/com/jerryz/poems/ui/ai/AiChatViewModel.kt:152 | the context holds one to ten messages, ends with the question just sent, and is the tail of the history including it |
| TurnAdapter.SameIdsSameItem | app/src/main/java/com/jerryz/poems/ui/ai/TurnAdapter.kt:37-41 | turns whose sides carry the same ids are the same item |
| TurnAdapter.KeyParts | app/src/main/java/com/jerryz/poems/ui/ai/TurnAdapter.kt:38-40 | with user ids free of `\|`, equal keys have equal parts |
| TurnAdapter.SameItemIff | app/src/main/java/com/jerryz/poems/ui/ai/TurnAdapter.kt:37-41 | with user ids free of `\|`, two turns are the same item exactly when both sides' ids agree, a missing side counting as "" |
| TurnAdapter.BarInIdCollides | app/src/main/java/com/jerryz/poems/ui/ai/TurnAdapter.kt:37-41 | a user id holding `\|` lets different turns share a key |
| TurnAdapter.ChangePayloadSpec | app/src/main/java/com/jerryz/poems/ui/ai/TurnAdapter.kt:45-54 | no payload exactly when neither content changed; a side's new text is carried only when that side changed and always when it changed and exists; typing is asked for exactly when the new reply is missing or blank |
| TurnAdapter.PartialMatchesBind | app/src/main/java/com/jerryz/poems/ui/ai/TurnAdapter.kt:98-171 | when no side appears or disappears, a partial update draws what a full bind of the new turn draws |
| TurnAdapter.SameItemPartialMatchesBind | app/src/main/java/com/jerryz/poems/ui/ai/TurnAdapter.kt:37-171 | for rows keyed by non-empty ids free of `\|`, a partial update of the same item draws what a full bind would |
| TurnAdapter.ChatFailureShownAsError | app/src/main/java/com/jerryz/poems/ui/ai/TurnAdapter.kt:262-265 | the chat failure text is shown in the error colour |
| TurnAdapter.ApiErrorOpeningShownAsError | app/src/main/java/com/jerryz/poems/ui/ai/TurnAdapter.kt:262-265 | any text opening with "API error:" reads as an error |
| TurnAdapter.ApiErrorShownAsError | app/src/main/java/com/jerryz/poems/ui/ai/TurnAdapter.kt:262-265 | the message of an unsuccessful response reads as an error |
| TurnAdapter.HighlightCoversGrowth | app/src/main/java/com/jerryz/poems/ui/ai/TurnAdapter.kt:166-205 | a highlight is drawn exactly when the text grew, and covers exactly the characters beyond the old length, the newly streamed ones when the text was extended |
| DictationAdapter.IsPunctAgrees | app/src/main/java/com/jerryz/poems/ui/ai/DictationAdapter.kt:204-216 | the adapter's punctuation test agrees with the view model's, the curly quotes missing from its list being Unicode punctuation anyway |
| DictationAdapter.IsNoise | app/src/main/java/com/jerryz/poems/ui/ai/DictationAdapter.kt:185 | the whitespace-or-punctuation test is true exactly for the characters left out of comparison |
| DictationAdapter.BuildBlankMask | app/src/main/java/com/jerryz/poems/ui/ai/DictationAdapter.kt:161-171 | the blank is the view model's blank: one character longer than the answer per content character, with no content character left |
| DictationAdapter.StripInput | app/src/main/java/com/jerryz/poems/ui/ai/DictationAdapter.kt:176-178 | the input keeps exactly its content characters, in order |
| DictationAdapter.BuildHighlightedAnswer | app/src/main/java/com/jerryz/poems/ui/ai/DictationAdapter.kt:173-202 | the text is the answer's characters in order; whitespace and punctuation are uncoloured, and the content character of rank k is wrong unless the stripped input has a k-th character, not NUL, equal to it |
| DictationAdapter.ContentPosition | app/src/main/java/com/jerryz/poems/ui/ai/DictationAdapter.kt:184-199 | every content character of the answer sits at some position whose rank it has |
| DictationAdapter.NoErrorIffPrefix | app/src/main/java/com/jerryz/poems/ui/ai/DictationAdapter.kt:184-199 | no position is flagged wrong exactly when the stripped answer is a prefix of the stripped input and that prefix holds no NUL |
| DictationAdapter.NoErrorWhenEqual | app/src/main/java/com/jerryz/poems/ui/ai/DictationAdapter.kt:188-192 | when the stripped input equals the stripped answer, which has no NUL, nothing is flagged wrong |
| DictationAdapter.ExtraInputIgnored | app/src/main/java/com/jerryz/poems/ui/ai/DictationAdapter.kt:188 | characters typed beyond the answer's length never change a flag |
| DictationText.IsPunctuationAgrees | app/src/main/java/com/jerryz/poems/ui/ai/AiDictationViewModel.kt:216-231 | punctuation is the seven Unicode punctuation categories or membership in the listed characters |
| DictationText.IdeographIsContent | app/src/main/java/com/jerryz/poems/ui/ai/AiDictationViewModel.kt:216-231 | every CJK unified ideograph takes part in comparison |
| DictationText.IdeographsNormalized | app/src/main/java/com/jerryz/poems/ui/ai/AiDictationViewModel.kt:233-240 | a text of CJK ideographs normalises to itself |
| DictationText.NormalizeForCompare | app/src/main/java/com/jerryz/poems/ui/ai/AiDictationViewModel.kt:233-240 | the loop keeps exactly the content characters, in order |
| DictationText.NormalizeKeepsContent | app/src/main/java/com/jerryz/poems/ui/ai/AiDictationViewModel.kt:233-240 | the result holds only content characters of the text, every content character of the text, and keeps their order |
| DictationText.NormalizeIdempotent | app/src/main/java/com/jerryz/poems/ui/ai/AiDictationViewModel.kt:233-240 | normalising twice is normalising once |
| DictationText.NormalizeIgnoresNoise | app/src/main/java/com/jerryz/poems/ui/ai/AiDictationViewModel.kt:233-240 | inserting whitespace or punctuation anywhere does not change the result |
| DictationText.ContentConcat | app/src/main/java/com/jerryz/poems/ui/ai/AiDictationViewModel.kt:233-240 | normalising a concatenation concatenates the normalised parts |
| DictationText.NormalizeContentOnly | app/src/main/java/com/jerryz/poems/ui/ai/AiDictationViewModel.kt:233-240 | a text of content characters only is its own normal form |
| DictationText.ContentRank | app/src/main/java/com/jerryz/poems/ui/ai/AiDictationViewModel.kt:233-240 | the content character at a position is the one at its rank in the normalised text |
| DictationText.MaskOf | app/src/main/java/com/jerryz/poems/ui/ai/AiDictationViewModel.kt:203-211 | whitespace and punctuation show as themselves, any other character as "__" |
| DictationText.BlankMaskOf | app/src/main/java/com/jerryz/poems/ui/ai/AiDictationViewModel.kt:201-214 | the loop builds the blank of the answer |
| DictationText.BlankMaskLength | app/src/main/java/com/jerryz/poems/ui/ai/AiDictationViewModel.kt:201-214 | the blank's length is the answer's plus its number of content characters |
| DictationText.BlankMaskHidesContent | app/src/main/java/com/jerryz/poems/ui/ai/AiDictationViewModel.kt:201-214 | the blank gives away no content character |
| DictationText.BlankMaskKeepsNoise | app/src/main/java/com/jerryz/poems/ui/ai/AiDictationViewModel.kt:201-214 | an answer without content characters is shown as it is |
| Grading.GradeCorrectIff | app/src/main/java/com/jerryz/poems/ui/ai/AiDictationViewModel.kt:152-164 | correct exactly when the normalised answer is non-empty and equals the normalised input |
| Grading.GradeTyposBounds | app/src/main/java/com/jerryz/poems/ui/ai/AiDictationViewModel.kt:166-172 | a typo verdict has total = normalised answer length, wrong count = edit distance between 1 and max(2, total / 2), and an empty mismatch mask |
| Grading.GradeWholeWrongIff | app/src/main/java/com/jerryz/poems/ui/ai/AiDictationViewModel.kt:152-172 | wholly wrong exactly when either normalised side is empty or their edit distance exceeds max(2, length / 2) |
| Grading.GradeReflexive | app/src/main/java/com/jerryz/poems/ui/ai/AiDictationViewModel.kt:159-164 | an answer with content typed back exactly is correct |
| Grading.GradeIgnoresNoise | app/src/main/java/com/jerryz/poems/ui/ai/AiDictationViewModel.kt:147-148 | inserting whitespace or punctuation into the input never changes the verdict |
| Grading.DistPrefix | app/src/main/java/com/jerryz/poems/ui/ai/AiDictationViewModel.kt:178-199 | typing only a prefix of the answer costs one edit per missing character |
| Grading.PrefixVerdict | app/src/main/java/com/jerryz/poems/ui/ai/AiDictationViewModel.kt:166-172 | an input whose content is a proper non-empty prefix of the answer's is graded by the number of missing characters alone |
| Grading.ThresholdBoundaryExample | app/src/main/java/com/jerryz/poems/ui/ai/AiDictationViewModel.kt:167-171 | for a five-character answer, three typed characters are two typos and two typed characters are wholly wrong |
| Grading.EmptyExample | app/src/main/java/com/jerryz/poems/ui/ai/AiDictationViewModel.kt:152-157 | an empty input, or an answer without content, is wholly wrong |
| Grading.BothHalvesNormalized | app/src/main/java/com/jerryz/poems/ui/ai/AiDictationViewModel.kt:233-240 | two lines of ideographs compare as their concatenation |
| Grading.ExampleAnswerContent | app/src/main/java/com/jerryz/poems/ui/ai/AiDictationViewModel.kt:233-240 | an answer with a comma between its two lines and a full stop after them compares as the ten ideographs alone |
| Grading.ExampleTypedContent | app/src/main/java/com/jerryz/poems/ui/ai/AiDictationViewModel.kt:233-240 | an input with a space between the two lines compares as the same ten ideographs |
| Grading.PunctuationInsensitiveExample | app/src/main/java/com/jerryz/poems/ui/ai/AiDictationViewModel.kt:147-164 | different punctuation and spacing alone leave an answer correct |
| EditDistance.Min3 | app/src/main/java/com/jerryz/poems/ui/ai/AiDictationViewModel.kt:191-195 | the least of three candidates: no larger than any and equal to one |
| EditDistance.FillRow | app/src/main/java/com/jerryz/poems/ui/ai/AiDictationViewModel.kt:186-197 | one pass of the outer loop fills row i with the distances from the first i characters of a to every prefix of b, and no other row changes |
| EditDistance.ComputeEditDistance | app/src/main/java/com/jerryz/poems/ui/ai/AiDictationViewModel.kt:178-199 | the result is the Levenshtein distance, \|b\| for an empty a and \|a\| for an empty b |
| EditDistance.DistUpperBound | app/src/main/java/com/jerryz/poems/ui/ai/AiDictationViewModel.kt:178-199 | the distance never exceeds the longer length |
| EditDistance.DistLowerBound | app/src/main/java/com/jerryz/poems/ui/ai/AiDictationViewModel.kt:178-199 | the distance is at least the difference of the lengths |
| EditDistance.DistSymmetric | app/src/main/java/com/jerryz/poems/ui/ai/AiDictationViewModel.kt:178-199 | the distance is symmetric |
| EditDistance.DistZeroIff | app/src/main/java/com/jerryz/poems/ui/ai/AiDictationViewModel.kt:178-199 | the distance is zero exactly when the prefixes are equal |
| EditDistance.DistanceProperties | app/src/main/java/com/jerryz/poems/ui/ai/AiDictationViewModel.kt:178-199 | whole strings: symmetric, zero exactly when equal, between the length difference and the longer length |
| ErrorFormatter.NormalizeDomain | app/src/main/java/com/jerryz/poems/ui/ai/AiErrorFormatter.kt:17-21 | the normalised host is empty or neither starts nor ends with '/' |
| ErrorFormatter.Sanitize | app/src/main/java/com/jerryz/poems/ui/ai/AiErrorFormatter.kt:33-41 | the loop applies the replacements in order and returns the trimmed text, or the fallback when that is empty |
| ErrorFormatter.NoReplacements | app/src/main/java/com/jerryz/poems/ui/ai/AiErrorFormatter.kt:35 | without a configured host a non-blank message is only trimmed, and a blank or missing one gives the fallback |
| ErrorFormatter.TrimOrFallback | app/src/main/java/com/jerryz/poems/ui/ai/AiErrorFormatter.kt:35-40 | trimming and falling back gives the fallback or trimmed text, never empty with a non-empty fallback |
| ErrorFormatter.SanitizedNonEmpty | app/src/main/java/com/jerryz/poems/ui/ai/AiErrorFormatter.kt:34-40 | the result is the fallback or trimmed text, and never empty when the fallback is not |
| ErrorFormatter.ReplacementsEmptyIff | app/src/main/java/com/jerryz/poems/ui/ai/AiErrorFormatter.kt:15-22 | there are no replacements exactly when the host is empty once trimmed and normalised |
| ErrorFormatter.PairsShape | app/src/main/java/com/jerryz/poems/ui/ai/AiErrorFormatter.kt:23-30 | six pairs, each pattern containing the host, mapped to "API/" exactly when the pattern ends in '/' and to "API" otherwise |
| ErrorFormatter.MatchContains | app/src/main/java/com/jerryz/poems/ui/ai/AiErrorFormatter.kt:38 | a case-insensitive match of a pattern containing the host contains a match of the host |
| ErrorFormatter.ApplyAllAbsent | app/src/main/java/com/jerryz/poems/ui/ai/AiErrorFormatter.kt:37-39 | patterns that all contain the host leave a text without the host unchanged |
| ErrorFormatter.HostAbsentOnlyTrims | app/src/main/java/com/jerryz/poems/ui/ai/AiErrorFormatter.kt:33-41 | a non-blank message that does not mention the host, in any letter case, is only trimmed |
| QuestionParser.ExtractArrayTextShape | app/src/main/java/com/jerryz/poems/ui/ai/AiDictationViewModel.kt:244-246 | when a '[' comes before some ']', the parser sees the text from the first '[' to the last ']'; otherwise the whole reply |
| QuestionParser.EntryOf | app/src/main/java/com/jerryz/poems/ui/ai/AiDictationViewModel.kt:251-256 | a question comes only from an object element |
| QuestionParser.CollectEntries | app/src/main/java/com/jerryz/poems/ui/ai/AiDictationViewModel.kt:249-259 | the loop keeps the usable questions of the array, in order |
| QuestionParser.ParseQuestions | app/src/main/java/com/jerryz/poems/ui/ai/AiDictationViewModel.kt:242-278 | the questions of a top-level array, else of an object's "questions" array, else none |
| QuestionParser.EntryOfWellFormed | app/src/main/java/com/jerryz/poems/ui/ai/AiDictationViewModel.kt:255-256 | every question kept has a non-blank prompt and answer and trimmed fields |
| QuestionParser.EntriesExactly | app/src/main/java/com/jerryz/poems/ui/ai/AiDictationViewModel.kt:250-258 | the questions are exactly the usable elements: each comes from an element and is well formed, and each usable element gives one |
| QuestionParser.FallbackKeys | app/src/main/java/com/jerryz/poems/ui/ai/AiDictationViewModel.kt:252-254 | a blank English field falls back to the Chinese key |
| QuestionParser.BlankDropped | app/src/main/java/com/jerryz/poems/ui/ai/AiDictationViewModel.kt:255 | an element whose question or answer is blank under both keys is dropped |
| QuestionParser.UnparsableGivesNothing | app/src/main/java/com/jerryz/poems/ui/ai/AiDictationViewModel.kt:260-277 | a reply parsing to neither an array nor an object gives no questions |
| DictationStore.Key | app/src/main/java/com/jerryz/poems/ui/ai/DictationRepository.kt:47 | the key is "dictation_" followed by the poem id |
| DictationStore.KeyInjective | app/src/main/java/com/jerryz/poems/ui/ai/DictationRepository.kt:47 | two poems share a key only when they are the same poem |
| DictationStore.LoadingStep | app/src/main/java/com/jerryz/poems/ui/ai/DictationRepository.kt:18-26 | an object element adds its question when its prompt and answer are not blank, and nothing otherwise |
| DictationStore.LoadingDone | app/src/main/java/com/jerryz/poems/ui/ai/DictationRepository.kt:18-26 | after the last element the list read is the usable questions, in order |
| DictationStore.ReadArray | app/src/main/java/com/jerryz/poems/ui/ai/DictationRepository.kt:16-30 | an array of objects reads as its usable questions, in order; an array with any other element reads as none |
| DictationStore.DictationRepository.constructor | app/src/main/java/com/jerryz/poems/ui/ai/DictationRepository.kt:8-11 | the repository stands on the given preference store |
| DictationStore.DictationRepository.Load | app/src/main/java/com/jerryz/poems/ui/ai/DictationRepository.kt:13-31 | the questions are what the value stored under the poem's key decodes to |
| DictationStore.DictationRepository.Save | app/src/main/java/com/jerryz/poems/ui/ai/DictationRepository.kt:33-45 | the questions' three texts, in order, are written under the poem's key and no other key changes |
| DictationStore.DecodeCases | app/src/main/java/com/jerryz/poems/ui/ai/DictationRepository.kt:13-31 | a missing key, unparsable text or a value that is not an array loads as no questions, and every loaded question has a non-blank prompt and answer |
| DictationStore.NonObjectSpoilsLoad | app/src/main/java/com/jerryz/poems/ui/ai/DictationRepository.kt:19-30 | an array with an element that is not an object loads as no questions |
| DictationStore.DecodeEncodeEntry | app/src/main/java/com/jerryz/poems/ui/ai/DictationRepository.kt:19-39 | a saved question reads back as itself exactly when its prompt and answer are not blank |
| DictationStore.FilterMapEncode | app/src/main/java/com/jerryz/poems/ui/ai/DictationRepository.kt:13-45 | reading back a saved array yields the saved questions with non-blank prompt and answer |
| DictationStore.DecodeEncode | app/src/main/java/com/jerryz/poems/ui/ai/DictationRepository.kt:13-45 | loading what was saved gives back the saved questions with non-blank prompt and answer, in order |
| DictationStore.RoundTrip | app/src/main/java/com/jerryz/poems/ui/ai/DictationRepository.kt:13-45 | when every saved question has a non-blank prompt and answer, loading gives back the list saved |
| DictationStore.SaveIsolated | app/src/main/java/com/jerryz/poems/ui/ai/DictationRepository.kt:47 | saving under one poem leaves what every other poem loads unchanged |
| DictationStore.ParsedSurviveRoundTrip | app/src/main/java/com/jerryz/poems/ui/ai/DictationRepository.kt:13-45 | questions produced by the reply parser survive a save and load intact |
| DictationSession.Question.constructor | app/src/main/java/com/jerryz/poems/ui/ai/AiDictationViewModel.kt:14-21 | a new question holds the three texts, no input, no verdict and revision 0 |
| DictationSession.Question.Copy | app/src/main/java/com/jerryz/poems/ui/ai/AiDictationViewModel.kt:154 | the copy keeps the texts and the input and carries the new verdict and revision |
| DictationSession.MakeQuestions | app/src/main/java/com/jerryz/poems/ui/ai/AiDictationViewModel.kt:14-21 | fresh, distinct question objects for the given texts, in order, without input or verdict |
| DictationSession.DictationViewModel.constructor | app/src/main/java/com/jerryz/poems/ui/ai/AiDictationViewModel.kt:53-57 | the list starts as the poem's saved questions, without input or verdict |
| DictationSession.DictationViewModel.BeginGenerate | app/src/main/java/com/jerryz/poems/ui/ai/AiDictationViewModel.kt:59-62 | a call while loading does nothing; otherwise loading starts and the current list is kept to be restored |
| DictationSession.DictationViewModel.FinishGenerate | app/src/main/java/com/jerryz/poems/ui/ai/AiDictationViewModel.kt:111-130 | usable questions replace the list, are saved and clear the error; an empty parse restores the old list and sets "生成失败，请重试"; an exception restores it and sets "请求失败：" and the sanitised message; loading ends in every case |
| DictationSession.DictationViewModel.UpdateUserInput | app/src/main/java/com/jerryz/poems/ui/ai/AiDictationViewModel.kt:134-141 | only the input of the question at the index changes, and only for an index in range; the list and every verdict stay as they are |
| DictationSession.DictationViewModel.CheckAnswer | app/src/main/java/com/jerryz/poems/ui/ai/AiDictationViewModel.kt:143-176 | out of range gives no verdict and changes nothing; otherwise the verdict of the question's current input, stored in a fresh copy that replaces that question alone |
| DictationSession.ThrownErrorNamesCause | app/src/main/java/com/jerryz/poems/ui/ai/AiDictationViewModel.kt:125-127 | the error after an exception opens with "请求失败：" and always names a cause after it |
| PoemParser.NoCarriageReturnOnlyTrims | app/src/main/java/com/jerryz/poems/util/PoemParser.kt:23 | a text without carriage returns is only trimmed before splitting |
| PoemParser.TagsShape | app/src/main/java/com/jerryz/poems/util/PoemParser.kt:36-43 | a third line opening with "Tags:" gives at least one tag, each trimmed; any other line gives no tags |
| PoemParser.BlankLineIsBlank | app/src/main/java/com/jerryz/poems/util/PoemParser.kt:51 | the line test is Kotlin's blank test |
| PoemParser.BlankLineIffTrimEmpty | app/src/main/java/com/jerryz/poems/util/PoemParser.kt:51 | a line is blank exactly when trimming empties it |
| PoemParser.FirstBlankFrom | app/src/main/java/com/jerryz/poems/util/PoemParser.kt:50-54 | the index of the first blank line at or after a position, or the number of lines |
| PoemParser.SplittingBlank | app/src/main/java/com/jerryz/poems/util/PoemParser.kt:51-53 | a blank line switches to the translation and stores nothing |
| PoemParser.SplittingStored | app/src/main/java/com/jerryz/poems/util/PoemParser.kt:56-60 | any other line is stored, trimmed, in the current section |
| PoemParser.SplittingDone | app/src/main/java/com/jerryz/poems/util/PoemParser.kt:50-61 | after the last line the two sections are the block's content and translation |
| PoemParser.TrimmedLine | app/src/main/java/com/jerryz/poems/util/PoemParser.kt:51-59 | the trimmed line is empty exactly when the line is blank, and is otherwise what gets stored |
| PoemParser.SplitSections | app/src/main/java/com/jerryz/poems/util/PoemParser.kt:45-61 | the loop yields the lines from the fourth up to the first blank line as content and the non-blank lines after it as translation, trimmed |
| PoemParser.SectionsPartitionLines | app/src/main/java/com/jerryz/poems/util/PoemParser.kt:45-61 | together the two sections are exactly the non-blank lines from the fourth on, trimmed, in order |
| PoemParser.StoredLineClean | app/src/main/java/com/jerryz/poems/util/PoemParser.kt:51-59 | a stored line is not blank and is unchanged by trimming |
| PoemParser.StoredLinesClean | app/src/main/java/com/jerryz/poems/util/PoemParser.kt:45-61 | every stored line is not blank and is unchanged by trimming |
| PoemParser.NoBlankNoTranslation | app/src/main/java/com/jerryz/poems/util/PoemParser.kt:45-61 | a block without a blank line has no translation, and everything from its fourth line on is content |
| PoemParser.ParsePoems | app/src/main/java/com/jerryz/poems/util/PoemParser.kt:16-77 | the loop yields the poem of every block with at least three lines, in block order |
| PoemParser.PoemAtKeepsIndex | app/src/main/java/com/jerryz/poems/util/PoemParser.kt:65 | a block that yields a poem gives it the block's index as id |
| PoemParser.ParsedIds | app/src/main/java/com/jerryz/poems/util/PoemParser.kt:29-72 | ids are block indices, strictly increasing, each poem is its block's poem, and no poem is a favourite |
| PoemParser.ParsedComplete | app/src/main/java/com/jerryz/poems/util/PoemParser.kt:29-33 | every block with three or more lines yields its poem |
| PoemParser.ParsedClean | app/src/main/java/com/jerryz/poems/util/PoemParser.kt:34-61 | title, author and tags are trimmed; content and translation lines are non-blank and trimmed |
| PoemStore.Stamped | app/src/main/java/com/jerryz/poems/data/PoemResponsitory.kt:146-148 | one poem per parsed poem, in order |
| PoemStore.StampedAgrees | app/src/main/java/com/jerryz/poems/data/PoemResponsitory.kt:145-151 | stamping changes only the favourite flags, sets each exactly when the id's string is in the favourites set, and keeps ids distinct |
| PoemStore.ParsedUniqueIds | app/src/main/java/com/jerryz/poems/data/PoemResponsitory.kt:141 | parsed poems have distinct ids |
| PoemStore.AllTagsOfMembers | app/src/main/java/com/jerryz/poems/data/PoemResponsitory.kt:192 | the flattened tags are exactly the tags of some cached poem |
| PoemStore.InsertMembers | app/src/main/java/com/jerryz/poems/data/PoemResponsitory.kt:192 | inserting a tag adds exactly it |
| PoemStore.InsertSorted | app/src/main/java/com/jerryz/poems/data/PoemResponsitory.kt:192 | inserting into a strictly ascending list keeps it strictly ascending |
| PoemStore.SortedDistinctSpec | app/src/main/java/com/jerryz/poems/data/PoemResponsitory.kt:192 | the distinct sorted tags are strictly ascending and hold exactly the given tags |
| PoemStore.StrictlySortedUnique | app/src/main/java/com/jerryz/poems/data/PoemResponsitory.kt:192 | two strictly ascending lists with the same members are equal, so the tag list is determined by its members |
| PoemStore.IndexOfId | app/src/main/java/com/jerryz/poems/data/PoemResponsitory.kt:207 | the position of the first poem with the id, or -1 when none has it |
| PoemStore.ToggleUnknown | app/src/main/java/com/jerryz/poems/data/PoemResponsitory.kt:209 | toggling an id that no cached poem has changes nothing |
| PoemStore.ToggleFirst | app/src/main/java/com/jerryz/poems/data/PoemResponsitory.kt:206-226 | toggling flips the flag of the first poem with the id only, keeps the order and length, and adds the id to or removes it from the favourites set to match |
| PoemStore.TogglePreservesAgreement | app/src/main/java/com/jerryz/poems/data/PoemResponsitory.kt:206-250 | with distinct ids, toggling keeps the flags and the favourites set in agreement |
| PoemStore.ToggleTwiceRestores | app/src/main/java/com/jerryz/poems/data/PoemResponsitory.kt:206-250 | toggling the same id twice restores the cache and the favourites set |
| PoemStore.PoemRepository.constructor | app/src/main/java/com/jerryz/poems/data/PoemResponsitory.kt:231-234 | an empty cache over the stored favourites set |
| PoemStore.PoemRepository.ProcessAndUpdatePoems | app/src/main/java/com/jerryz/poems/data/PoemResponsitory.kt:140-159 | the cache becomes the parsed poems, each flagged exactly when its id's string is a stored favourite |
| PoemStore.PoemRepository.GetPoemById | app/src/main/java/com/jerryz/poems/data/PoemResponsitory.kt:165-169 | the first cached poem with the id, or none exactly when no poem has it |
| PoemStore.PoemRepository.SearchPoems | app/src/main/java/com/jerryz/poems/data/PoemResponsitory.kt:174-185 | a blank query gives nothing; otherwise the cached poems, in order, whose title, author, a content line, a tag or a translation line contains the trimmed lowercased query |
| PoemStore.PoemRepository.GetAllTags | app/src/main/java/com/jerryz/poems/data/PoemResponsitory.kt:190-193 | strictly ascending, and exactly the tags of the cached poems |
| PoemStore.PoemRepository.GetFavoritePoems | app/src/main/java/com/jerryz/poems/data/PoemResponsitory.kt:198-201 | the flagged cached poems, in cache order |
| PoemStore.PoemRepository.IsDataLoaded | app/src/main/java/com/jerryz/poems/data/PoemResponsitory.kt:255-257 | true exactly when the cache is not empty |
| PoemStore.PoemRepository.SaveFavoriteStatus | app/src/main/java/com/jerryz/poems/data/PoemResponsitory.kt:239-250 | the id is added to or removed from the stored set, and the cache is untouched |
| PoemStore.PoemRepository.ToggleFavorite | app/src/main/java/com/jerryz/poems/data/PoemResponsitory.kt:206-226 | the cache and the favourites set become their toggled forms, keeping them in agreement |
| PoemDetail.NextInRange | app/src/main/java/com/jerryz/poems/ui/detail/PoemDetailViewModel.kt:52-75 | a size between 12 and 24 stays there after any one action |
| PoemDetail.RunInRange | app/src/main/java/com/jerryz/poems/ui/detail/PoemDetailViewModel.kt:52-75 | starting between 12 and 24, any sequence of actions stays there |
| PoemDetail.StepChangesUnlessAtBound | app/src/main/java/com/jerryz/poems/ui/detail/PoemDetailViewModel.kt:52-68 | increase changes the size unless it is 24, decrease unless it is 12; from outside the range one step lands on the bound passed |
| PoemDetail.StepsUndo | app/src/main/java/com/jerryz/poems/ui/detail/PoemDetailViewModel.kt:52-68 | away from the bounds, a decrease undoes an increase and an increase undoes a decrease |
| PoemDetail.PoemDetailViewModel.constructor | app/src/main/java/com/jerryz/poems/ui/detail/PoemDetailViewModel.kt:27-41 | the shown size is the stored one, 16 when none is stored |
| PoemDetail.PoemDetailViewModel.GetTextSize | app/src/main/java/com/jerryz/poems/ui/detail/PoemDetailViewModel.kt:48-50 | the shown size, 16 when none is set |
| PoemDetail.PoemDetailViewModel.SaveTextSize | app/src/main/java/com/jerryz/poems/ui/detail/PoemDetailViewModel.kt:43-46 | the size is stored and nothing else changes |
| PoemDetail.PoemDetailViewModel.IncreaseTextSize | app/src/main/java/com/jerryz/poems/ui/detail/PoemDetailViewModel.kt:52-59 | the size becomes min(size + 2, 24), shown and stored only when it changes |
| PoemDetail.PoemDetailViewModel.DecreaseTextSize | app/src/main/java/com/jerryz/poems/ui/detail/PoemDetailViewModel.kt:61-68 | the size becomes max(size - 2, 12), shown and stored only when it changes |
| PoemDetail.PoemDetailViewModel.ResetTextSize | app/src/main/java/com/jerryz/poems/ui/detail/PoemDetailViewModel.kt:70-75 | the size becomes 16, shown and stored unless 16 is already set |
| PoemDetail.PoemDetailViewModel.LoadPoem | app/src/main/java/com/jerryz/poems/ui/detail/PoemDetailViewModel.kt:78-95 | with poems loaded, the poem becomes the first one with the id, or none; with none loaded nothing changes |

## Left out

- User interface: fragments, view holders, layouts, animations, the typing dots, the footer adapters and `getItemId`'s hash code. The adapters are modelled only through their pure rules: identity, payload, what a row shows, the highlight, the blank and the answer colouring.
- Network: the OkHttp request building and execution, headers, timeouts and the prompt strings. A response is an input: its status, whether it has a body, and its lines, plus whether reading fails. The `count` argument of the dictation request only shapes the prompt.
- JSON text parsing: `JSONObject(text)` and `JSONArray(text)` are a parameter from text to an optional JSON value. Writing JSON is modelled, and loading assumes only that parsing reads back what was written.
- Token extraction from one event payload is a parameter too. The rule that `delta` takes precedence over `message` is modelled and proved separately.
- Concurrency: LiveData and `postValue`, coroutines, `synchronized`, the 80 ms UI-update throttle and the `isStreaming` flag. A call is one run of the method, and cancellation is an input.
- Strings are sequences of Unicode code points, while a Kotlin `String` counts and compares UTF-16 code units. For characters outside the Basic Multilingual Plane the model therefore differs in lengths, edit distances, grading thresholds, blanks, highlight positions and tag order. Inside the Basic Multilingual Plane, which holds every CJK unified ideograph the app deals with, the two counts coincide. The members concerned are named in the lines below.
- Grading.Grade: an answer of characters outside the Basic Multilingual Plane is graded on code points, while the source grades on code units. The normalised lengths, the edit distance and the threshold max(2, length / 2) are all counted differently, so the verdict can differ (for four such characters against four others, `WholeWrong` here and typos in the source).
- EditDistance.ComputeEditDistance: the distance is between code-point sequences, not UTF-16 code-unit sequences.
- DictationText.BlankMaskOf: a character outside the Basic Multilingual Plane becomes one "__" here; the source writes "__" for each of its two code units.
- DictationAdapter.BuildBlankMask: same as `DictationText.BlankMaskOf`.
- DictationAdapter.BuildHighlightedAnswer: positions and ranks are counted in code points, not code units.
- TurnAdapter.HighlightStart: the start of the highlight is a code-point position, not a code-unit position.
- PoemStore.PoemRepository.GetAllTags: tags are ordered by code point (`KotlinText.Less`); Kotlin's `sorted()` orders by code unit, which places U+FF0C after U+20000 rather than before it.
- Json.OptString: a nested array or object reads as a fixed non-blank marker instead of its JSON text. Json.OptLong: a numeric string reads as 0 instead of its value. The data the app writes holds neither.
- Unicode: only part of the punctuation tables is modelled, and case mapping is ASCII-only. Every CJK ideograph is content, and the listed punctuation is all treated as in the source.
- Values from the environment are parameters: UUID ids, timestamps, the `nanoTime` revision of a checked answer, exception messages and the configured API host.
- Loading the bundled poem file (`loadPoems`, `fetchFromNetwork`) is left out; the model starts at the file's text.
- The favourites are a field standing for the `SharedPreferences` string set of favourite ids.
- `loadPoem` reads `repository.poems.value`; here it reads the repository's cache. Its `addSource` observer that follows later updates (`PoemDetailViewModel.kt` lines 98-113) and `onCleared` are left out.
- `PoemDetailViewModel.toggleFavorite` is left out: it only delegates to the repository's `ToggleFavorite`, which is modelled.
- PoemDetail.PoemDetailViewModel: text sizes are `Float` in the source and integers here. Every value the screen produces (12 to 24 in steps of 2, and 16) is a whole number, so nothing is lost.
- The file declaring `ChatTurn` is not part of this model; a turn is an optional question and an optional reply (`ChatSession.ChatTurn`).
- DictationAdapter: the list's item DIFF callbacks and its view binding are left out; only the blank and the colouring of the answer are modelled.
