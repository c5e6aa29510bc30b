/** The text helpers of the dictation list item (`DictationAdapter.VH`):
    its own punctuation test, the blank mask and the answer highlighted
    character by character against the user's input. */
module DictationAdapter {
  import KotlinText
  import Seqs
  import DictationText

  /** The adapter's extra punctuation list; unlike the view model's it lacks
      the curly quotes. */
  const AdapterPunctuation: string := "，。？！；：、（）《》【】—…·,.!?;:()<>[]——…·"

  /** `isPunct`. */
  predicate IsPunct(c: char) {
    KotlinText.IsPunctuationCategory(c) || c in AdapterPunctuation
  }

  /** The adapter and the view model agree on what punctuation is: the curly
      quotes missing from the adapter's list are initial/final quote
      punctuation in Unicode. */
  lemma IsPunctAgrees(c: char)
    ensures IsPunct(c) <==> DictationText.IsPunctuation(c)
  {
    forall k | 0 <= k < |AdapterPunctuation|
      ensures DictationText.IsPunctuation(AdapterPunctuation[k])
    {
      if k < 10 {
      } else if k < 20 {
      } else {
      }
    }
    assert '<' == AdapterPunctuation[24] && '>' == AdapterPunctuation[25];
  }

  /** The test `ch.isWhitespace() || isPunct(ch)` the adapter's loops make:
      true exactly for the characters left out of comparison. */
  method IsNoise(ch: char) returns (noise: bool)
    ensures noise <==> !DictationText.IsContent(ch)
  {
    IsPunctAgrees(ch);
    noise := KotlinText.IsWhitespace(ch) || IsPunct(ch);
  }

  /** `buildBlankMask`: the same blank as the view model's `blankMaskOf`. */
  method BuildBlankMask(answer: string) returns (r: string)
    ensures r == DictationText.BlankMask(answer)
    ensures |r| == |answer| + |DictationText.ContentChars(answer)|
    ensures DictationText.ContentChars(r) == ""
  {
    r := "";
    var i := 0;
    while i < |answer|
      invariant 0 <= i <= |answer|
      invariant r == DictationText.BlankMask(answer[..i])
    {
      assert answer[..i + 1][..i] == answer[..i];
      var ch := answer[i];
      IsPunctAgrees(ch);
      if KotlinText.IsWhitespace(ch) {
        r := r + [ch];
      } else if IsPunct(ch) {
        r := r + [ch];
      } else {
        r := r + "__";
      }
      i := i + 1;
    }
    assert answer[..i] == answer;
    DictationText.BlankMaskLength(answer);
    DictationText.BlankMaskHidesContent(answer);
  }

  // ---------------------------------------------------------------------------
  // highlighted answer

  /** The colour a character of the highlighted answer gets. */
  datatype Style = Uncoloured | CorrectColour | ErrorColour

  datatype StyledChar = StyledChar(ch: char, style: Style)

  /** The style of answer position `i` against the normalised input `user`:
      whitespace and punctuation are left uncoloured; the content character of
      rank `k` is correct only when `user` has a `k`-th character, that
      character is not NUL (the adapter's "no input" sentinel) and it equals
      the answer's. */
  function StyleAt(answer: string, user: string, i: nat): Style
    requires i < |answer|
  {
    if !DictationText.IsContent(answer[i]) then Uncoloured
    else
      var k := |DictationText.ContentChars(answer[..i])|;
      if k < |user| && user[k] != '\0' && user[k] == answer[i] then CorrectColour else ErrorColour
  }

  /** The input with whitespace and punctuation removed, as
      `buildHighlightedAnswer` first computes it. */
  method StripInput(userRaw: string) returns (user: string)
    ensures user == DictationText.ContentChars(userRaw)
  {
    user := "";
    var j := 0;
    while j < |userRaw|
      invariant 0 <= j <= |userRaw|
      invariant user == DictationText.ContentChars(userRaw[..j])
    {
      Seqs.FilterAppend(userRaw[..j], userRaw[j], DictationText.IsContent);
      assert userRaw[..j + 1] == userRaw[..j] + [userRaw[j]];
      var noise := IsNoise(userRaw[j]);
      if !noise {
        user := user + [userRaw[j]];
      }
      j := j + 1;
    }
    assert userRaw[..j] == userRaw;
  }

  /** `buildHighlightedAnswer`: the answer's characters, in order, each
      styled against the input with whitespace and punctuation removed; `u`
      counts the content characters of the answer seen so far. */
  method BuildHighlightedAnswer(answer: string, userInput: string) returns (r: seq<StyledChar>)
    ensures |r| == |answer|
    ensures forall i :: 0 <= i < |r| ==>
      r[i] == StyledChar(answer[i], StyleAt(answer, DictationText.ContentChars(userInput), i))
  {
    var user := StripInput(userInput);
    r := [];
    var u := 0;
    var i := 0;
    while i < |answer|
      invariant 0 <= i <= |answer|
      invariant |r| == i
      invariant u == |DictationText.ContentChars(answer[..i])|
      invariant forall p :: 0 <= p < i ==> r[p] == StyledChar(answer[p], StyleAt(answer, user, p))
    {
      var ch := answer[i];
      Seqs.FilterAppend(answer[..i], ch, DictationText.IsContent);
      assert answer[..i + 1] == answer[..i] + [ch];
      var noise := IsNoise(ch);
      var styled;
      if noise {
        styled := StyledChar(ch, Uncoloured);
      } else {
        var uc := if u < |user| then user[u] else '\0';
        var wrong := uc == '\0' || uc != ch;
        styled := StyledChar(ch, if wrong then ErrorColour else CorrectColour);
        u := u + 1;
      }
      assert styled == StyledChar(answer[i], StyleAt(answer, user, i));
      r := r + [styled];
      i := i + 1;
    }
  }

  /** Some position of `s` holds its content character of rank `k`. */
  lemma {:induction false} ContentPosition(s: string, k: nat) returns (i: nat)
    requires k < |DictationText.ContentChars(s)|
    ensures i < |s| && DictationText.IsContent(s[i]) && |DictationText.ContentChars(s[..i])| == k
    decreases |s|
  {
    var p := s[..|s| - 1];
    var x := s[|s| - 1];
    assert p + [x] == s;
    Seqs.FilterAppend(p, x, DictationText.IsContent);
    if k < |DictationText.ContentChars(p)| {
      i := ContentPosition(p, k);
      assert s[..i] == p[..i];
    } else {
      i := |s| - 1;
      assert s[..i] == p;
    }
  }

  /** The normalised answer is a prefix of the normalised input, and that
      prefix contains no NUL. */
  predicate MatchedPrefix(answer: string, user: string) {
    forall k :: 0 <= k < |DictationText.ContentChars(answer)| ==>
      k < |user| && user[k] == DictationText.ContentChars(answer)[k] && user[k] != '\0'
  }

  /** No answer position is flagged wrong. */
  predicate NoError(answer: string, user: string) {
    forall i :: 0 <= i < |answer| ==> StyleAt(answer, user, i) != ErrorColour
  }

  /** Without a flagged position, the input matches the content character
      of rank `k`. */
  lemma NoErrorAt(answer: string, user: string, k: nat)
    requires NoError(answer, user)
    requires k < |DictationText.ContentChars(answer)|
    ensures k < |user| && user[k] == DictationText.ContentChars(answer)[k] && user[k] != '\0'
  {
    var i := ContentPosition(answer, k);
    assert StyleAt(answer, user, i) != ErrorColour;
    DictationText.ContentRank(answer, i);
  }

  /** Without a flagged position, the normalised answer is a NUL-free
      prefix of the normalised input. */
  lemma NoErrorGivesPrefix(answer: string, user: string)
    requires NoError(answer, user)
    ensures MatchedPrefix(answer, user)
  {
    if !MatchedPrefix(answer, user) {
      var k :| 0 <= k < |DictationText.ContentChars(answer)|
        && !(k < |user| && user[k] == DictationText.ContentChars(answer)[k] && user[k] != '\0');
      NoErrorAt(answer, user, k);
      assert false;
    }
  }

  /** A NUL-free prefix match leaves no position flagged. */
  lemma PrefixGivesNoError(answer: string, user: string)
    requires MatchedPrefix(answer, user)
    ensures NoError(answer, user)
  {
    forall i | 0 <= i < |answer|
      ensures StyleAt(answer, user, i) != ErrorColour
    {
      if DictationText.IsContent(answer[i]) {
        DictationText.ContentRank(answer, i);
      }
    }
  }

  /** No answer position is flagged wrong exactly when the normalised answer
      is a prefix of the normalised input and that prefix contains no NUL. */
  lemma NoErrorIffPrefix(answer: string, user: string)
    ensures NoError(answer, user) <==> MatchedPrefix(answer, user)
  {
    if NoError(answer, user) {
      NoErrorGivesPrefix(answer, user);
    }
    if MatchedPrefix(answer, user) {
      PrefixGivesNoError(answer, user);
    }
  }

  /** When the normalised input equals the normalised answer and the answer
      has no NUL, nothing is flagged wrong. */
  lemma NoErrorWhenEqual(answer: string, userInput: string)
    requires DictationText.ContentChars(userInput) == DictationText.ContentChars(answer)
    requires forall i :: 0 <= i < |answer| ==> answer[i] != '\0'
    ensures forall i :: 0 <= i < |answer| ==>
      StyleAt(answer, DictationText.ContentChars(userInput), i) != ErrorColour
  {
    var ans := DictationText.ContentChars(answer);
    DictationText.NormalizeKeepsContent(answer);
    forall k | 0 <= k < |ans| ensures ans[k] != '\0' {
      assert ans[k] in answer;
    }
    NoErrorIffPrefix(answer, ans);
  }

  /** Characters typed beyond the answer's length never change any flag. */
  lemma ExtraInputIgnored(answer: string, user: string, extra: string)
    requires |user| >= |DictationText.ContentChars(answer)|
    ensures forall i :: 0 <= i < |answer| ==> StyleAt(answer, user + extra, i) == StyleAt(answer, user, i)
  {
    forall i | 0 <= i < |answer|
      ensures StyleAt(answer, user + extra, i) == StyleAt(answer, user, i)
    {
      if DictationText.IsContent(answer[i]) {
        DictationText.ContentRank(answer, i);
      }
    }
  }
}
