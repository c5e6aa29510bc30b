/** Character classes and text transforms of the dictation screen
    (`AiDictationViewModel.isPunctuation`, `normalizeForCompare`, `blankMaskOf`). */
module DictationText {
  import KotlinText
  import Seqs

  /** Characters the view model counts as punctuation on top of the Unicode
      punctuation categories. */
  const ExtraPunctuation: string := "，。？！；：、（）《》【】“”‘’—…·,.!?;:()<>[]——…·"

  /** `isPunctuation` as written: a Unicode punctuation category, or one of
      the listed characters. */
  predicate IsListedPunctuation(c: char) {
    KotlinText.IsPunctuationCategory(c) || c in ExtraPunctuation
  }

  /** The same test in the form the proofs use: of the listed characters only
      '<' and '>' (math symbols) lie outside the punctuation categories. */
  predicate IsPunctuation(c: char) {
    KotlinText.IsPunctuationCategory(c) || c == '<' || c == '>'
  }

  lemma IsPunctuationAgrees(c: char)
    ensures IsListedPunctuation(c) <==> IsPunctuation(c)
  {
    forall k | 0 <= k < |ExtraPunctuation|
      ensures IsPunctuation(ExtraPunctuation[k])
    {
      if k < 10 {
      } else if k < 20 {
      } else {
      }
    }
    assert '<' == ExtraPunctuation[28] && '>' == ExtraPunctuation[29];
  }

  /** A character that takes part in answer comparison: neither whitespace nor punctuation. */
  predicate IsContent(c: char) {
    !KotlinText.IsWhitespace(c) && !IsPunctuation(c)
  }

  /** Every CJK unified ideograph takes part in comparison. */
  lemma IdeographIsContent(c: char)
    requires '\U{4E00}' <= c <= '\U{9FFF}'
    ensures IsContent(c)
  {
  }

  /** Text made only of CJK unified ideographs is its own normal form. */
  lemma IdeographsNormalized(s: string)
    requires forall k :: 0 <= k < |s| ==> '\U{4E00}' <= s[k] <= '\U{9FFF}'
    ensures ContentChars(s) == s
  {
    forall k | 0 <= k < |s| ensures IsContent(s[k]) {
      IdeographIsContent(s[k]);
    }
    NormalizeContentOnly(s);
  }

  /** The content characters of `s`, in order. */
  function ContentChars(s: string): string {
    Seqs.Filter(s, IsContent)
  }

  /** `normalizeForCompare`: drops every whitespace and punctuation character. */
  method NormalizeForCompare(text: string) returns (r: string)
    ensures r == ContentChars(text)
  {
    r := "";
    var i := 0;
    while i < |text|
      invariant 0 <= i <= |text|
      invariant r == ContentChars(text[..i])
    {
      Seqs.FilterAppend(text[..i], text[i], IsContent);
      assert text[..i + 1] == text[..i] + [text[i]];
      IsPunctuationAgrees(text[i]);
      if !KotlinText.IsWhitespace(text[i]) && !IsListedPunctuation(text[i]) {
        r := r + [text[i]];
      }
      i := i + 1;
    }
    assert text[..i] == text;
  }

  /** Normalising keeps exactly the content characters of the text. */
  lemma NormalizeKeepsContent(s: string)
    ensures forall k :: 0 <= k < |ContentChars(s)| ==> IsContent(ContentChars(s)[k]) && ContentChars(s)[k] in s
    ensures forall k :: 0 <= k < |s| && IsContent(s[k]) ==> s[k] in ContentChars(s)
    ensures Seqs.Subseq(ContentChars(s), s)
  {
    Seqs.FilterMembers(s, IsContent);
    Seqs.FilterSubseq(s, IsContent);
  }

  /** Normalising an already normalised text changes nothing. */
  lemma NormalizeIdempotent(s: string)
    ensures ContentChars(ContentChars(s)) == ContentChars(s)
  {
    Seqs.FilterIdempotent(s, IsContent);
  }

  /** Inserting whitespace or punctuation anywhere does not change the normalised text. */
  lemma NormalizeIgnoresNoise(a: string, c: char, b: string)
    requires !IsContent(c)
    ensures ContentChars(a + [c] + b) == ContentChars(a + b)
  {
    Seqs.FilterConcat(a + [c], b, IsContent);
    Seqs.FilterAppend(a, c, IsContent);
    Seqs.FilterConcat(a, b, IsContent);
  }

  /** Normalisation distributes over concatenation. */
  lemma ContentConcat(a: string, b: string)
    ensures ContentChars(a + b) == ContentChars(a) + ContentChars(b)
  {
    Seqs.FilterConcat(a, b, IsContent);
  }

  /** Text made only of content characters is its own normal form. */
  lemma NormalizeContentOnly(s: string)
    requires forall k :: 0 <= k < |s| ==> IsContent(s[k])
    ensures ContentChars(s) == s
  {
    Seqs.FilterAllKept(s, IsContent);
  }

  /** The content character at position `i` of `s` is the one at its rank in `ContentChars(s)`. */
  lemma ContentRank(s: string, i: nat)
    requires i < |s| && IsContent(s[i])
    ensures |ContentChars(s[..i])| < |ContentChars(s)|
    ensures ContentChars(s)[|ContentChars(s[..i])|] == s[i]
  {
    assert s == s[..i] + [s[i]] + s[i + 1..];
    Seqs.FilterConcat(s[..i] + [s[i]], s[i + 1..], IsContent);
    Seqs.FilterAppend(s[..i], s[i], IsContent);
  }

  // ---------------------------------------------------------------------------
  // blank mask

  /** What one answer character shows as in the blank: whitespace and
      punctuation stay, any other character becomes two underscores. */
  function MaskOf(c: char): (r: string)
    ensures !IsContent(c) ==> r == [c]
    ensures IsContent(c) ==> r == "__"
  {
    if KotlinText.IsWhitespace(c) || IsPunctuation(c) then [c] else "__"
  }

  /** The blank shown in place of an answer. */
  function BlankMask(s: string): string
    decreases |s|
  {
    if s == [] then "" else BlankMask(s[..|s| - 1]) + MaskOf(s[|s| - 1])
  }

  /** `blankMaskOf`. */
  method BlankMaskOf(answer: string) returns (r: string)
    ensures r == BlankMask(answer)
  {
    r := "";
    var i := 0;
    while i < |answer|
      invariant 0 <= i <= |answer|
      invariant r == BlankMask(answer[..i])
    {
      assert answer[..i + 1][..i] == answer[..i];
      var ch := answer[i];
      IsPunctuationAgrees(ch);
      if KotlinText.IsWhitespace(ch) {
        r := r + [ch];
      } else if IsListedPunctuation(ch) {
        r := r + [ch];
      } else {
        r := r + "__";
      }
      i := i + 1;
    }
    assert answer[..i] == answer;
  }

  /** The blank is one character longer than the answer for every content character. */
  lemma {:induction false} BlankMaskLength(s: string)
    ensures |BlankMask(s)| == |s| + |ContentChars(s)|
    decreases |s|
  {
    if s != [] {
      var p := s[..|s| - 1];
      BlankMaskLength(p);
      Seqs.FilterAppend(p, s[|s| - 1], IsContent);
      assert p + [s[|s| - 1]] == s;
    }
  }

  /** The blank gives away no content character of the answer. */
  lemma {:induction false} BlankMaskHidesContent(s: string)
    ensures ContentChars(BlankMask(s)) == ""
    decreases |s|
  {
    if s != [] {
      var p := s[..|s| - 1];
      BlankMaskHidesContent(p);
      Seqs.FilterConcat(BlankMask(p), MaskOf(s[|s| - 1]), IsContent);
      assert KotlinText.IsPunctuationCategory('_');
      assert ContentChars(MaskOf(s[|s| - 1])) == "";
    }
  }

  /** An answer without content characters is shown as it is. */
  lemma {:induction false} BlankMaskKeepsNoise(s: string)
    requires forall k :: 0 <= k < |s| ==> !IsContent(s[k])
    ensures BlankMask(s) == s
    decreases |s|
  {
    if s != [] {
      BlankMaskKeepsNoise(s[..|s| - 1]);
      assert s[..|s| - 1] + [s[|s| - 1]] == s;
    }
  }
}
