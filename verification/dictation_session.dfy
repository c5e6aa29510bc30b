/** The dictation screen's question list (`AiDictationViewModel`): loading the
    saved questions, regenerating a set (keeping the old list when that
    fails), typing into a question in place and checking one answer. */
module DictationSession {
  import opened Wrappers
  import KotlinText
  import QuestionParser
  import DictationText
  import EditDistance
  import Grading
  import ErrorFormatter
  import DictationStore
  import Json
  import Prefs

  /** The error shown when the reply held no usable question. */
  const NoQuestionsError: string := "生成失败，请重试"

  /** The start of the error shown when the request threw. */
  const FailurePrefix: string := "请求失败："

  /** The sanitiser's fallback for an `IllegalStateException`. */
  const EmptyOutputFallback: string := "输出为空，请重试"

  /** The sanitiser's fallback for any other exception. */
  const NetworkFallback: string := "请检查网络后重试"

  /** `DictationQuestion`: the three texts are fixed; the input and the
      verdict are updated in place. */
  class Question {
    const prompt: string
    const answer: string
    const explanation: string
    const revision: int
    var userInput: string
    var result: Option<Grading.CheckResult>

    /** A question as parsed or loaded: no input, no verdict, revision 0. */
    constructor (e: QuestionParser.Entry)
      ensures prompt == e.prompt && answer == e.answer && explanation == e.explanation
      ensures userInput == "" && result == None && revision == 0
    {
      prompt := e.prompt;
      answer := e.answer;
      explanation := e.explanation;
      revision := 0;
      userInput := "";
      result := None;
    }

    /** `copy(result = r, revision = rev)`. */
    constructor Copy(q: Question, r: Grading.CheckResult, rev: int)
      ensures prompt == q.prompt && answer == q.answer && explanation == q.explanation
      ensures userInput == q.userInput && result == Some(r) && revision == rev
    {
      prompt := q.prompt;
      answer := q.answer;
      explanation := q.explanation;
      revision := rev;
      userInput := q.userInput;
      result := Some(r);
    }

    /** The stored texts of the question. */
    function Entry(): QuestionParser.Entry
      reads this
    {
      QuestionParser.Entry(prompt, answer, explanation)
    }
  }

  /** No question object appears twice in the list. */
  ghost predicate Distinct(qs: seq<Question>) {
    forall i, j :: 0 <= i < j < |qs| ==> qs[i] != qs[j]
  }

  /** Fresh, distinct question objects for the given texts, in order. */
  method MakeQuestions(entries: seq<QuestionParser.Entry>) returns (qs: seq<Question>)
    ensures |qs| == |entries| && Distinct(qs)
    ensures forall i :: 0 <= i < |qs| ==> fresh(qs[i])
    ensures forall i :: 0 <= i < |qs| ==>
      qs[i].Entry() == entries[i] && qs[i].userInput == "" && qs[i].result == None
  {
    qs := [];
    for i := 0 to |entries|
      invariant |qs| == i && Distinct(qs)
      invariant forall k :: 0 <= k < i ==> fresh(qs[k])
      invariant forall k :: 0 <= k < i ==>
        qs[k].Entry() == entries[k] && qs[k].userInput == "" && qs[k].result == None
    {
      var q := new Question(entries[i]);
      qs := qs + [q];
    }
  }

  /** What the completion request came to: the reply text, or an exception
      (whether it was an `IllegalStateException`, and its message if any). */
  datatype Outcome = Replied(raw: string) | Threw(illegalState: bool, message: Option<string>)

  /** The error text for a request that threw. */
  function ThrownError(illegalState: bool, message: Option<string>, domain: string): string {
    var fallback := if illegalState then EmptyOutputFallback else NetworkFallback;
    FailurePrefix + ErrorFormatter.Sanitized(message, fallback, domain)
  }

  class DictationViewModel {
    const poemId: int
    /** The API host the error sanitiser hides (a build setting). */
    const apiDomain: string
    const repo: DictationStore.DictationRepository
    var questions: seq<Question>
    var loading: bool
    var error: Option<string>

    /** `init`: the saved questions of the poem, none generated. */
    constructor (poemId: int, apiDomain: string, repo: DictationStore.DictationRepository)
      ensures this.poemId == poemId && this.apiDomain == apiDomain && this.repo == repo
      ensures |questions| == |DictationStore.Decode(Prefs.Get(repo.prefs, DictationStore.Key(poemId)))|
      ensures forall i :: 0 <= i < |questions| ==>
        questions[i].Entry() == DictationStore.Decode(Prefs.Get(repo.prefs, DictationStore.Key(poemId)))[i]
        && questions[i].userInput == "" && questions[i].result == None
      ensures Distinct(questions) && !loading && error == None
    {
      this.poemId := poemId;
      this.apiDomain := apiDomain;
      this.repo := repo;
      var saved := repo.Load(poemId);
      var qs := MakeQuestions(saved);
      questions := qs;
      loading := false;
      error := None;
    }

    /** The first half of `generateNewSet`, up to launching the request: a
        no-op while a request is running; otherwise marks loading and hands
        back the current list to restore on failure. */
    method BeginGenerate() returns (started: bool, snapshot: seq<Question>)
      modifies this
      ensures started == !old(loading)
      ensures !started ==> loading && questions == old(questions) && error == old(error)
      ensures started ==> loading && snapshot == questions == old(questions) && error == old(error)
    {
      if loading {
        return false, [];
      }
      loading := true;
      snapshot := questions;
      started := true;
    }

    /** The second half of `generateNewSet`, once the request has come back:
        usable questions replace the list, are saved and clear the error;
        otherwise the snapshot is put back and an error is set.  Loading ends
        in every case. */
    method FinishGenerate(snapshot: seq<Question>, outcome: Outcome, parse: string -> Option<Json.Json>)
      modifies this, repo
      ensures !loading
      ensures outcome.Replied? && QuestionParser.Parsed(outcome.raw, parse) != [] ==>
        var parsed := QuestionParser.Parsed(outcome.raw, parse);
        |questions| == |parsed| && Distinct(questions) && error == None
        && (forall i :: 0 <= i < |questions| ==>
              fresh(questions[i]) && questions[i].Entry() == parsed[i]
              && questions[i].userInput == "" && questions[i].result == None)
        && repo.prefs == old(repo.prefs)[DictationStore.Key(poemId) := Prefs.Document(DictationStore.Encode(parsed))]
      ensures outcome.Replied? && QuestionParser.Parsed(outcome.raw, parse) == [] ==>
        questions == snapshot && error == Some(NoQuestionsError) && repo.prefs == old(repo.prefs)
      ensures outcome.Threw? ==>
        questions == snapshot && error == Some(ThrownError(outcome.illegalState, outcome.message, apiDomain))
        && repo.prefs == old(repo.prefs)
    {
      match outcome {
        case Replied(raw) =>
          var parsed := QuestionParser.ParseQuestions(raw, parse);
          if parsed != [] {
            questions := MakeQuestions(parsed);
            repo.Save(poemId, parsed);
            error := None;
          } else {
            questions := snapshot;
            error := Some(NoQuestionsError);
          }
        case Threw(illegalState, message) =>
          questions := snapshot;
          var fallback := if illegalState then EmptyOutputFallback else NetworkFallback;
          var sanitized := ErrorFormatter.Sanitize(message, fallback, apiDomain);
          error := Some(FailurePrefix + sanitized);
      }
      loading := false;
    }

    /** `updateUserInput`: sets the input of one question in place; the
        list, the verdicts and every other question stay as they are. */
    method UpdateUserInput(index: int, text: string)
      modifies questions
      ensures questions == old(questions)
      ensures 0 <= index < |questions| ==> questions[index].userInput == text
      ensures forall q :: q in questions ==> q.result == old(q.result)
      ensures forall q :: q in questions && (index < 0 || index >= |questions| || q != questions[index]) ==>
        q.userInput == old(q.userInput)
    {
      if index < 0 || index >= |questions| {
        return;
      }
      var q := questions[index];
      if q.userInput == text {
        return;
      }
      q.userInput := text;
    }

    /** `checkAnswer`: no verdict for an index out of range; otherwise the
        verdict of the question's current input, written into a copy of the
        question that takes its place in the list with a new revision. */
    method CheckAnswer(index: int, newRevision: int) returns (r: Option<Grading.CheckResult>)
      modifies this
      ensures !(0 <= index < |old(questions)|) ==> r == None && questions == old(questions)
      ensures 0 <= index < |old(questions)| ==>
        var q := old(questions)[index];
        r == Some(Grading.Grade(q.answer, q.userInput))
        && |questions| == |old(questions)|
        && (forall k :: 0 <= k < |questions| && k != index ==> questions[k] == old(questions)[k])
        && fresh(questions[index])
        && questions[index].Entry() == q.Entry() && questions[index].userInput == q.userInput
        && questions[index].result == r && questions[index].revision == newRevision
      ensures Distinct(old(questions)) ==> Distinct(questions)
      ensures loading == old(loading) && error == old(error)
    {
      if index < 0 || index >= |questions| {
        return None;
      }
      var q := questions[index];
      var ans := DictationText.NormalizeForCompare(q.answer);
      var user := DictationText.NormalizeForCompare(q.userInput);
      var result: Grading.CheckResult;
      if user == [] || ans == [] {
        result := Grading.WholeWrong;
      } else if ans == user {
        result := Grading.Correct;
      } else {
        var dist := EditDistance.ComputeEditDistance(ans, user);
        var threshold := if 2 >= |ans| / 2 then 2 else |ans| / 2;
        if dist > threshold {
          result := Grading.WholeWrong;
        } else {
          result := Grading.Typos(|ans|, dist, []);
        }
      }
      var copy := new Question.Copy(q, result, newRevision);
      questions := questions[index := copy];
      r := Some(result);
    }
  }

  /** The error set when the request threw opens with the failure prefix and
      always names a cause after it. */
  lemma ThrownErrorNamesCause(illegalState: bool, message: Option<string>, domain: string)
    ensures var e := ThrownError(illegalState, message, domain);
      |e| > |FailurePrefix| && e[..|FailurePrefix|] == FailurePrefix
  {
    var fallback := if illegalState then EmptyOutputFallback else NetworkFallback;
    ErrorFormatter.SanitizedNonEmpty(message, fallback, domain);
  }
}
