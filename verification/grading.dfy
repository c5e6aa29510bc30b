/** The verdict `AiDictationViewModel.checkAnswer` gives one answer. */
module Grading {
  import DictationText
  import EditDistance

  /** `CheckResult`: right, close enough to count as typos, or wrong. */
  datatype CheckResult =
    | Correct
    | Typos(total: int, wrongCount: int, mismatchMask: seq<bool>)
    | WholeWrong

  /** `maxOf(2, len / 2)`: the most edits still graded as typos. */
  function Threshold(len: nat): nat {
    if 2 >= len / 2 then 2 else len / 2
  }

  /** The verdict for a question with answer `answer` and user input `userInput`. */
  function Grade(answer: string, userInput: string): CheckResult {
    var ans := DictationText.ContentChars(answer);
    var user := DictationText.ContentChars(userInput);
    if user == [] || ans == [] then WholeWrong
    else if ans == user then Correct
    else
      var dist := EditDistance.Distance(ans, user);
      if dist > Threshold(|ans|) then WholeWrong
      else Typos(|ans|, dist, [])
  }

  /** An answer is correct exactly when it has content and the input has the
      same content characters in the same order. */
  lemma GradeCorrectIff(answer: string, userInput: string)
    ensures Grade(answer, userInput) == Correct <==>
      DictationText.ContentChars(answer) != [] && DictationText.ContentChars(answer) == DictationText.ContentChars(userInput)
  {
  }

  /** A typo verdict counts the content characters of the answer, reports
      between one and `Threshold` edits, and never fills in the mismatch mask. */
  lemma GradeTyposBounds(answer: string, userInput: string)
    requires Grade(answer, userInput).Typos?
    ensures var r := Grade(answer, userInput);
      r.total == |DictationText.ContentChars(answer)| && r.mismatchMask == []
      && 1 <= r.wrongCount <= Threshold(r.total)
      && r.wrongCount == EditDistance.Distance(DictationText.ContentChars(answer), DictationText.ContentChars(userInput))
  {
    EditDistance.DistanceProperties(DictationText.ContentChars(answer), DictationText.ContentChars(userInput));
  }

  /** The input is wholly wrong exactly when either side is empty after
      normalising, or the two differ by more than `Threshold` edits. */
  lemma GradeWholeWrongIff(answer: string, userInput: string)
    ensures var ans := DictationText.ContentChars(answer);
      var user := DictationText.ContentChars(userInput);
      Grade(answer, userInput) == WholeWrong <==>
        ans == [] || user == [] || EditDistance.Distance(ans, user) > Threshold(|ans|)
  {
    var ans := DictationText.ContentChars(answer);
    var user := DictationText.ContentChars(userInput);
    EditDistance.DistanceProperties(ans, user);
  }

  /** Any answer with content, typed back exactly, is correct. */
  lemma GradeReflexive(answer: string)
    requires DictationText.ContentChars(answer) != []
    ensures Grade(answer, answer) == Correct
  {
  }

  /** Inserting whitespace or punctuation into the input never changes the verdict. */
  lemma GradeIgnoresNoise(answer: string, before: string, c: char, after: string)
    requires !DictationText.IsContent(c)
    ensures Grade(answer, before + [c] + after) == Grade(answer, before + after)
  {
    DictationText.NormalizeIgnoresNoise(before, c, after);
  }

  /** Typing only the first `k` content characters of an answer costs one edit
      per missing character. */
  lemma {:induction false} DistPrefix(a: string, k: nat, i: nat)
    requires k <= i <= |a|
    ensures EditDistance.Dist(a, a[..k], i, k) == i - k
    decreases i
  {
    var b := a[..k];
    if i == k {
      EditDistance.DistZeroIff(a, b, i, k);
      assert a[..i] == b[..k];
    } else {
      DistPrefix(a, k, i - 1);
      EditDistance.DistLowerBound(a, b, i, k);
    }
  }

  /** An input whose content is a proper, non-empty prefix of the answer's
      content is graded by the number of missing characters alone. */
  lemma PrefixVerdict(answer: string, userInput: string, k: nat)
    requires 0 < k < |DictationText.ContentChars(answer)|
    requires DictationText.ContentChars(userInput) == DictationText.ContentChars(answer)[..k]
    ensures var n := |DictationText.ContentChars(answer)|;
      Grade(answer, userInput) == if n - k > Threshold(n) then WholeWrong else Typos(n, n - k, [])
  {
    var ans := DictationText.ContentChars(answer);
    DistPrefix(ans, k, |ans|);
    assert |ans[..k]| != |ans|;
  }

  /** The answer "春眠不觉晓" has threshold 2: typing its first three
      characters ("春眠不") is a typo verdict with two edits, typing its first
      two ("春眠") is wholly wrong. */
  lemma ThresholdBoundaryExample(answer: string)
    requires answer == "春眠不觉晓"
    ensures Grade(answer, answer[..3]) == Typos(5, 2, [])
    ensures Grade(answer, answer[..2]) == WholeWrong
  {
    DictationText.IdeographsNormalized(answer);
    DictationText.IdeographsNormalized(answer[..3]);
    DictationText.IdeographsNormalized(answer[..2]);
    PrefixVerdict(answer, answer[..3], 3);
    PrefixVerdict(answer, answer[..2], 2);
  }

  /** An empty input, or an answer without content, is wholly wrong. */
  lemma EmptyExample(answer: string)
    requires answer == "春眠不觉晓"
    ensures Grade(answer, "") == WholeWrong
    ensures Grade("", answer) == WholeWrong
  {
  }

  /** Two lines of ideographs normalise, together, to their concatenation. */
  lemma BothHalvesNormalized(first: string, second: string)
    requires first == "春眠不觉晓" && second == "处处闻啼鸟"
    ensures DictationText.ContentChars(first + second) == first + second
  {
    DictationText.IdeographsNormalized(first);
    DictationText.IdeographsNormalized(second);
    DictationText.ContentConcat(first, second);
  }

  /** The answer "春眠不觉晓，处处闻啼鸟。" compares as its ten ideographs:
      the two punctuation marks drop out. */
  lemma ExampleAnswerContent(first: string, second: string)
    requires first == "春眠不觉晓" && second == "处处闻啼鸟"
    ensures DictationText.ContentChars(first + ['，'] + second + ['。']) == first + second
  {
    var both := first + second;
    DictationText.NormalizeIgnoresNoise(first, '，', second + ['。']);
    DictationText.NormalizeIgnoresNoise(both, '。', "");
    assert first + ['，'] + second + ['。'] == first + ['，'] + (second + ['。']);
    assert first + (second + ['。']) == both + ['。'] + "";
    assert both + "" == both;
    BothHalvesNormalized(first, second);
  }

  /** The input "春眠不觉晓 处处闻啼鸟" compares as the same ten ideographs:
      the space drops out. */
  lemma ExampleTypedContent(first: string, second: string)
    requires first == "春眠不觉晓" && second == "处处闻啼鸟"
    ensures DictationText.ContentChars(first + [' '] + second) == first + second
  {
    DictationText.NormalizeIgnoresNoise(first, ' ', second);
    BothHalvesNormalized(first, second);
  }

  /** Punctuation and spacing differences alone leave an answer correct:
      "春眠不觉晓，处处闻啼鸟。" typed as "春眠不觉晓 处处闻啼鸟". */
  lemma PunctuationInsensitiveExample(first: string, second: string)
    requires first == "春眠不觉晓" && second == "处处闻啼鸟"
    ensures Grade(first + ['，'] + second + ['。'], first + [' '] + second) == Correct
  {
    ExampleAnswerContent(first, second);
    ExampleTypedContent(first, second);
  }
}
