/** Hiding the configured API host in error messages (`AiErrorFormatter`).
    The host comes from the build configuration; here it is a parameter. */
module ErrorFormatter {
  import opened Wrappers
  import KotlinText

  /** `DEFAULT_FALLBACK`. */
  const DefaultFallback: string := "未知错误"

  /** The configured host with a leading "https://", "http://" or "//"
      removed (in that order) and surrounding slashes trimmed. */
  function NormalizeDomain(raw: string): (n: string)
    ensures n == [] || (n[0] != '/' && n[|n| - 1] != '/')
  {
    var stripped := KotlinText.RemovePrefix(KotlinText.RemovePrefix(KotlinText.RemovePrefix(raw, "https://"), "http://"), "//");
    KotlinText.TrimWhere(stripped, c => c == '/')
  }

  /** `buildReplacements`: no pairs when the trimmed setting or its normalised
      host is empty; otherwise the host with and without scheme and trailing
      slash, longest forms first, each mapped to "API" (with the slash kept). */
  function BuildReplacements(domain: string): seq<(string, string)> {
    var raw := KotlinText.Trim(domain);
    if raw == [] then []
    else
      var n := NormalizeDomain(raw);
      if n == [] then [] else Pairs(n)
  }

  /** The six pairs built for a non-empty host `n`. */
  function Pairs(n: string): seq<(string, string)> {
    [("https://" + n + "/", "API/"), ("http://" + n + "/", "API/"),
     ("https://" + n, "API"), ("http://" + n, "API"),
     (n + "/", "API/"), (n, "API")]
  }

  /** The pairs applied in order, each replacing case-insensitively. */
  function ApplyAll(s: string, reps: seq<(string, string)>): string
    decreases |reps|
  {
    if reps == [] then s else ApplyAll(KotlinText.Replace(s, reps[0].0, reps[0].1, true), reps[1..])
  }

  /** The message with a blank or missing one replaced by the fallback. */
  function Base(rawMessage: Option<string>, fallback: string): string {
    if rawMessage.Some? && !KotlinText.IsBlank(rawMessage.value) then rawMessage.value else fallback
  }

  /** `ifEmpty { fallback }`. */
  function IfEmpty(s: string, fallback: string): string {
    if s == [] then fallback else s
  }

  /** What `sanitize` returns. */
  function Sanitized(rawMessage: Option<string>, fallback: string, domain: string): string {
    var base := Base(rawMessage, fallback);
    var reps := BuildReplacements(domain);
    if reps == [] then IfEmpty(KotlinText.Trim(base), fallback)
    else IfEmpty(KotlinText.Trim(ApplyAll(base, reps)), fallback)
  }

  /** `sanitize`: the replacements are applied one after another to `result`. */
  method Sanitize(rawMessage: Option<string>, fallback: string, domain: string) returns (r: string)
    ensures r == Sanitized(rawMessage, fallback, domain)
  {
    var base := if rawMessage.Some? && !KotlinText.IsBlank(rawMessage.value) then rawMessage.value else fallback;
    var replacements := BuildReplacements(domain);
    if replacements == [] {
      return IfEmpty(KotlinText.Trim(base), fallback);
    }
    var result := base;
    for i := 0 to |replacements|
      invariant ApplyAll(result, replacements[i..]) == ApplyAll(base, replacements)
    {
      assert replacements[i..][1..] == replacements[i + 1..];
      result := KotlinText.Replace(result, replacements[i].0, replacements[i].1, true);
    }
    assert replacements[|replacements|..] == [];
    r := IfEmpty(KotlinText.Trim(result), fallback);
  }

  /** Without a configured host the message is only trimmed, with a blank
      or missing message replaced by the fallback. */
  lemma NoReplacements(rawMessage: Option<string>, fallback: string, domain: string)
    requires BuildReplacements(domain) == []
    ensures rawMessage.Some? && !KotlinText.IsBlank(rawMessage.value) ==>
      Sanitized(rawMessage, fallback, domain) == KotlinText.Trim(rawMessage.value)
    ensures (rawMessage.None? || KotlinText.IsBlank(rawMessage.value)) ==>
      Sanitized(rawMessage, fallback, domain) == IfEmpty(KotlinText.Trim(fallback), fallback)
  {
    if rawMessage.Some? && !KotlinText.IsBlank(rawMessage.value) {
      KotlinText.TrimEmptyIffBlank(rawMessage.value);
    }
  }

  /** Trimming and falling back never gives an empty text when the fallback
      is not empty, and gives either the fallback or trimmed text. */
  lemma TrimOrFallback(s: string, fallback: string)
    ensures var r := IfEmpty(KotlinText.Trim(s), fallback);
      (fallback != [] ==> r != []) && (r == fallback || KotlinText.Trim(r) == r)
  {
    KotlinText.TrimIdempotent(s);
  }

  /** The result is never empty when the fallback is not, and it is either the
      fallback or trimmed text. */
  lemma SanitizedNonEmpty(rawMessage: Option<string>, fallback: string, domain: string)
    ensures var r := Sanitized(rawMessage, fallback, domain);
      (fallback != [] ==> r != []) && (r == fallback || KotlinText.Trim(r) == r)
  {
    var base := Base(rawMessage, fallback);
    var reps := BuildReplacements(domain);
    if reps == [] {
      TrimOrFallback(base, fallback);
    } else {
      TrimOrFallback(ApplyAll(base, reps), fallback);
    }
  }

  /** There are no pairs exactly when the normalised host is empty. */
  lemma ReplacementsEmptyIff(domain: string)
    ensures BuildReplacements(domain) == [] <==> NormalizeDomain(KotlinText.Trim(domain)) == []
  {
    if KotlinText.Trim(domain) == [] {
      assert KotlinText.TrimStartWhere([], c => c == '/') == [];
    }
  }

  /** Every pattern contains the host, and a pattern ends in '/' exactly when
      its replacement is "API/" rather than "API". */
  lemma PairsShape(n: string)
    requires n != [] && n[|n| - 1] != '/'
    ensures var reps := Pairs(n);
      |reps| == 6 && forall i :: 0 <= i < 6 ==>
        Occurs(reps[i].0, n)
        && (reps[i].1 == "API" || reps[i].1 == "API/")
        && (reps[i].1 == "API/" <==> reps[i].0[|reps[i].0| - 1] == '/')
  {
    var reps := Pairs(n);
    forall i | 0 <= i < 6 ensures Occurs(reps[i].0, n) {
      var o := if i == 0 || i == 2 then 8 else if i == 1 || i == 3 then 7 else 0;
      assert reps[i].0[o..o + |n|] == n;
      assert KotlinText.RegionMatches(reps[i].0, o, n, false);
    }
  }

  /** `n` occurs, letter for letter, in `t`. */
  predicate Occurs(t: string, n: string) {
    exists o :: 0 <= o <= |t| - |n| && KotlinText.RegionMatches(t, o, n, false)
  }

  /** A match of a pattern containing `n` contains a match of `n`. */
  lemma MatchContains(s: string, k: nat, t: string, n: string, o: nat)
    requires KotlinText.RegionMatches(t, o, n, false)
    requires KotlinText.RegionMatches(s, k, t, true)
    ensures KotlinText.RegionMatches(s, k + o, n, true)
  {
    forall j | 0 <= j < |n| ensures KotlinText.CharEquals(s[k + o + j], n[j], true) {
      assert KotlinText.CharEquals(t[o + j], n[j], false);
    }
  }

  /** Pairs whose patterns all contain a non-empty `n` leave a text without
      `n` unchanged. */
  lemma {:induction false} ApplyAllAbsent(s: string, reps: seq<(string, string)>, n: string)
    requires n != []
    requires forall i :: 0 <= i < |reps| ==> Occurs(reps[i].0, n)
    requires forall k :: 0 <= k <= |s| - |n| ==> !KotlinText.RegionMatches(s, k, n, true)
    ensures ApplyAll(s, reps) == s
    decreases |reps|
  {
    if reps != [] {
      var t := reps[0].0;
      var o :| 0 <= o <= |t| - |n| && KotlinText.RegionMatches(t, o, n, false);
      forall k | 0 <= k <= |s| - |t| ensures !KotlinText.RegionMatches(s, k, t, true) {
        if KotlinText.RegionMatches(s, k, t, true) {
          MatchContains(s, k, t, n, o);
        }
      }
      KotlinText.ReplaceAbsent(s, t, reps[0].1, true);
      ApplyAllAbsent(s, reps[1..], n);
    }
  }

  /** A message that does not mention the host, in any letter case, is only
      trimmed. */
  lemma HostAbsentOnlyTrims(message: string, fallback: string, domain: string)
    requires !KotlinText.IsBlank(message)
    requires forall k :: 0 <= k <= |message| - |NormalizeDomain(KotlinText.Trim(domain))| ==>
      !KotlinText.RegionMatches(message, k, NormalizeDomain(KotlinText.Trim(domain)), true)
    ensures Sanitized(Some(message), fallback, domain) == KotlinText.Trim(message)
  {
    var reps := BuildReplacements(domain);
    KotlinText.TrimEmptyIffBlank(message);
    if reps != [] {
      var n := NormalizeDomain(KotlinText.Trim(domain));
      PairsShape(n);
      ApplyAllAbsent(message, reps, n);
    }
  }
}
