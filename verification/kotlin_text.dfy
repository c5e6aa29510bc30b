/** The Kotlin and JDK string operations the app relies on: character classes,
    trim/isBlank, prefixes, replace, split, lowercase, Int.toString and
    String.compareTo. */
module KotlinText {

  /** Kotlin's `Char.isWhitespace()` on the JVM, which is
      `Character.isWhitespace(c) || Character.isSpaceChar(c)`. */
  predicate IsWhitespace(c: char) {
    ('\t' <= c <= '\r') || ('\U{1C}' <= c <= ' ') || c == '\U{A0}' || c == '\U{1680}'
    || ('\U{2000}' <= c <= '\U{200A}') || c == '\U{2028}' || c == '\U{2029}'
    || c == '\U{202F}' || c == '\U{205F}' || c == '\U{3000}'
  }

  /** `Character.getType(c)` is one of the seven punctuation categories
      (Pc, Pd, Ps, Pe, Pi, Pf, Po).  Only the Basic Latin, Latin-1, General
      Punctuation, CJK Symbols and Punctuation and Fullwidth Forms entries of
      the Unicode table are listed. */
  predicate IsPunctuationCategory(c: char) {
    // Basic Latin
    ('!' <= c <= '#') || ('%' <= c <= '*') || (',' <= c <= '/') || c == ':' || c == ';'
    || c == '?' || c == '@' || ('[' <= c <= ']') || c == '_' || c == '{' || c == '}'
    // Latin-1 Supplement
    || c == '\U{A1}' || c == '\U{A7}' || c == '\U{AB}' || c == '\U{B6}' || c == '\U{B7}'
    || c == '\U{BB}' || c == '\U{BF}'
    // General Punctuation
    || ('\U{2010}' <= c <= '\U{2027}') || ('\U{2030}' <= c <= '\U{2043}')
    || ('\U{2045}' <= c <= '\U{2051}') || ('\U{2053}' <= c <= '\U{205E}')
    // CJK Symbols and Punctuation, Katakana middle dot
    || ('\U{3001}' <= c <= '\U{3003}') || ('\U{3008}' <= c <= '\U{3011}')
    || ('\U{3014}' <= c <= '\U{301F}') || c == '\U{3030}' || c == '\U{303D}'
    || c == '\U{30A0}' || c == '\U{30FB}'
    // Halfwidth and Fullwidth Forms
    || ('\U{FF01}' <= c <= '\U{FF03}') || ('\U{FF05}' <= c <= '\U{FF0A}')
    || ('\U{FF0C}' <= c <= '\U{FF0F}') || c == '\U{FF1A}' || c == '\U{FF1B}'
    || c == '\U{FF1F}' || c == '\U{FF20}' || ('\U{FF3B}' <= c <= '\U{FF3D}')
    || c == '\U{FF3F}' || c == '\U{FF5B}' || c == '\U{FF5D}' || ('\U{FF5F}' <= c <= '\U{FF65}')
  }

  /** Kotlin's `isBlank()`: every character is whitespace (true of ""). */
  predicate IsBlank(s: string) {
    forall i :: 0 <= i < |s| ==> IsWhitespace(s[i])
  }

  // ---------------------------------------------------------------------------
  // trim

  function TrimStartWhere(s: string, strip: char -> bool): (r: string)
    ensures |r| <= |s| && r == s[|s| - |r|..]
    ensures r == [] || !strip(r[0])
    ensures forall k :: 0 <= k < |s| - |r| ==> strip(s[k])
    decreases |s|
  {
    if s != [] && strip(s[0]) then TrimStartWhere(s[1..], strip) else s
  }

  function TrimEndWhere(s: string, strip: char -> bool): (r: string)
    ensures |r| <= |s| && r == s[..|r|]
    ensures r == [] || !strip(r[|r| - 1])
    ensures forall k :: |r| <= k < |s| ==> strip(s[k])
    decreases |s|
  {
    if s != [] && strip(s[|s| - 1]) then TrimEndWhere(s[..|s| - 1], strip) else s
  }

  /** Kotlin's `trim { strip(it) }`: drops leading and trailing characters satisfying `strip`. */
  function TrimWhere(s: string, strip: char -> bool): string {
    TrimEndWhere(TrimStartWhere(s, strip), strip)
  }

  /** Kotlin's `trim()`. */
  function Trim(s: string): string {
    TrimWhere(s, IsWhitespace)
  }

  lemma TrimmedEnds(s: string)
    ensures Trim(s) == [] || (!IsWhitespace(Trim(s)[0]) && !IsWhitespace(Trim(s)[|Trim(s)| - 1]))
  {
    var a := TrimStartWhere(s, IsWhitespace);
    var r := TrimEndWhere(a, IsWhitespace);
    if r != [] {
      assert r[0] == a[0];
    }
  }

  /** A string trims to nothing exactly when it is blank. */
  lemma TrimEmptyIffBlank(s: string)
    ensures Trim(s) == [] <==> IsBlank(s)
  {
  }

  /** Trimming twice is trimming once. */
  lemma TrimIdempotent(s: string)
    ensures Trim(Trim(s)) == Trim(s)
  {
    var t := Trim(s);
    TrimmedEnds(s);
    assert TrimStartWhere(t, IsWhitespace) == t;
    assert TrimEndWhere(t, IsWhitespace) == t;
  }

  /** Trimming a non-blank string leaves a non-blank string. */
  lemma TrimNonBlank(s: string)
    requires !IsBlank(s)
    ensures !IsBlank(Trim(s)) && Trim(s) != []
  {
    TrimEmptyIffBlank(s);
    TrimmedEnds(s);
  }

  lemma {:induction false} TrimEndAfterPrefix(p: string, m: string)
    requires p != [] && !IsWhitespace(p[|p| - 1])
    ensures TrimEndWhere(p + m, IsWhitespace) == p + TrimEndWhere(m, IsWhitespace)
    decreases |m|
  {
    if m != [] && IsWhitespace(m[|m| - 1]) {
      assert (p + m)[..|p + m| - 1] == p + m[..|m| - 1];
      TrimEndAfterPrefix(p, m[..|m| - 1]);
    } else if m == [] {
      assert p + m == p;
    }
  }

  /** A prefix that begins and ends with non-whitespace survives `trim()`. */
  lemma TrimKeepsPrefix(p: string, m: string)
    requires p != [] && !IsWhitespace(p[0]) && !IsWhitespace(p[|p| - 1])
    ensures StartsWith(Trim(p + m), p)
  {
    assert (p + m)[0] == p[0];
    assert TrimStartWhere(p + m, IsWhitespace) == p + m;
    TrimEndAfterPrefix(p, m);
    assert (p + TrimEndWhere(m, IsWhitespace))[..|p|] == p;
  }

  // ---------------------------------------------------------------------------
  // prefixes, case, substrings

  /** Kotlin's `startsWith(prefix)`. */
  predicate StartsWith(s: string, prefix: string) {
    |prefix| <= |s| && s[..|prefix|] == prefix
  }

  /** Kotlin's `removePrefix(prefix)`. */
  function RemovePrefix(s: string, prefix: string): (r: string)
    ensures StartsWith(s, prefix) ==> s == prefix + r
    ensures !StartsWith(s, prefix) ==> r == s
  {
    if StartsWith(s, prefix) then s[|prefix|..] else s
  }

  /** `Char.uppercaseChar()`; case mappings outside ASCII are not part of this model. */
  function UpperChar(c: char): char {
    if 'a' <= c <= 'z' then (c as int - 32) as char else c
  }

  /** `Char.lowercaseChar()`; case mappings outside ASCII are not part of this model. */
  function LowerChar(c: char): char {
    if 'A' <= c <= 'Z' then (c as int + 32) as char else c
  }

  /** Kotlin's `Char.equals(other, ignoreCase)`. */
  predicate CharEquals(a: char, b: char, ignoreCase: bool) {
    a == b || (ignoreCase && (UpperChar(a) == UpperChar(b) || LowerChar(UpperChar(a)) == LowerChar(UpperChar(b))))
  }

  /** `s.regionMatches(at, p, 0, p.length, ignoreCase)`. */
  predicate RegionMatches(s: string, at: nat, p: string, ignoreCase: bool) {
    at + |p| <= |s| && forall k :: 0 <= k < |p| ==> CharEquals(s[at + k], p[k], ignoreCase)
  }

  /** Kotlin's `contains(sub)` (case-sensitive). */
  predicate Contains(s: string, sub: string) {
    exists k :: 0 <= k <= |s| - |sub| && RegionMatches(s, k, sub, false)
  }

  /** Kotlin's `indexOf(c)`: the first position holding `c`, or -1. */
  function IndexOf(s: string, c: char): (i: int)
    ensures -1 <= i < |s|
    ensures i >= 0 ==> s[i] == c && forall k :: 0 <= k < i ==> s[k] != c
    ensures i == -1 ==> forall k :: 0 <= k < |s| ==> s[k] != c
    decreases |s|
  {
    if s == [] then -1
    else if s[0] == c then 0
    else
      var j := IndexOf(s[1..], c);
      if j == -1 then -1 else j + 1
  }

  /** Kotlin's `lastIndexOf(c)`: the last position holding `c`, or -1. */
  function LastIndexOf(s: string, c: char): (i: int)
    ensures -1 <= i < |s|
    ensures i >= 0 ==> s[i] == c && forall k :: i < k < |s| ==> s[k] != c
    ensures i == -1 ==> forall k :: 0 <= k < |s| ==> s[k] != c
    decreases |s|
  {
    if s == [] then -1
    else if s[|s| - 1] == c then |s| - 1
    else LastIndexOf(s[..|s| - 1], c)
  }

  /** Kotlin's `ifBlank { fallback }`. */
  function IfBlank(s: string, fallback: string): string {
    if IsBlank(s) then fallback else s
  }

  /** Kotlin's `String.lowercase()`, character by character. */
  function Lowercase(s: string): (r: string)
    ensures |r| == |s|
  {
    seq(|s|, i requires 0 <= i < |s| => LowerChar(s[i]))
  }

  // ---------------------------------------------------------------------------
  // replace and split

  /** Kotlin's `replace("", r)`: `r` before every character and at the end. */
  function InsertEverywhere(s: string, replacement: string): string {
    if s == [] then replacement else replacement + [s[0]] + InsertEverywhere(s[1..], replacement)
  }

  /** Kotlin's `replace(target, replacement, ignoreCase)`: scans left to right
      and replaces non-overlapping occurrences. */
  function Replace(s: string, target: string, replacement: string, ignoreCase: bool): string
    decreases |s|
  {
    if |target| == 0 then InsertEverywhere(s, replacement)
    else if |s| < |target| then s
    else if RegionMatches(s, 0, target, ignoreCase) then
      replacement + Replace(s[|target|..], target, replacement, ignoreCase)
    else [s[0]] + Replace(s[1..], target, replacement, ignoreCase)
  }

  /** Replacing a target that does not occur changes nothing. */
  lemma {:induction false} ReplaceAbsent(s: string, target: string, replacement: string, ignoreCase: bool)
    requires |target| > 0
    requires forall k :: 0 <= k <= |s| - |target| ==> !RegionMatches(s, k, target, ignoreCase)
    ensures Replace(s, target, replacement, ignoreCase) == s
    decreases |s|
  {
    if |s| >= |target| {
      assert !RegionMatches(s, 0, target, ignoreCase);
      forall k | 0 <= k <= |s[1..]| - |target|
        ensures !RegionMatches(s[1..], k, target, ignoreCase)
      {
        assert !RegionMatches(s, k + 1, target, ignoreCase);
        if RegionMatches(s[1..], k, target, ignoreCase) {
          forall j | 0 <= j < |target| ensures CharEquals(s[k + 1 + j], target[j], ignoreCase) {
            assert s[1..][k + j] == s[k + 1 + j];
          }
        }
      }
      ReplaceAbsent(s[1..], target, replacement, ignoreCase);
      assert [s[0]] + s[1..] == s;
    }
  }

  /** Kotlin's `split(delim)`: the pieces between non-overlapping occurrences
      found left to right, trailing empty pieces included. */
  function Split(s: string, delim: string): (r: seq<string>)
    requires |delim| > 0
    ensures |r| >= 1
    decreases |s|
  {
    if |s| < |delim| then [s]
    else if s[..|delim|] == delim then [""] + Split(s[|delim|..], delim)
    else
      var rest := Split(s[1..], delim);
      [[s[0]] + rest[0]] + rest[1..]
  }

  /** Kotlin's `joinToString(delim)`. */
  function Join(parts: seq<string>, delim: string): string
    decreases |parts|
  {
    if parts == [] then "" else if |parts| == 1 then parts[0] else parts[0] + delim + Join(parts[1..], delim)
  }

  lemma JoinExtendsFirst(x: string, parts: seq<string>, delim: string)
    requires parts != []
    ensures Join([x + parts[0]] + parts[1..], delim) == x + Join(parts, delim)
  {
    var ps := [x + parts[0]] + parts[1..];
    if |parts| > 1 {
      assert ps[1..] == parts[1..];
    }
  }

  lemma JoinEmptyFirst(parts: seq<string>, delim: string)
    requires parts != []
    ensures Join([""] + parts, delim) == delim + Join(parts, delim)
  {
    assert ([""] + parts)[1..] == parts;
  }

  /** Splitting and joining with the same delimiter gives back the text. */
  lemma {:induction false} JoinSplit(s: string, delim: string)
    requires |delim| > 0
    ensures Join(Split(s, delim), delim) == s
    decreases |s|
  {
    if |s| < |delim| {
    } else if s[..|delim|] == delim {
      var rest := Split(s[|delim|..], delim);
      JoinSplit(s[|delim|..], delim);
      JoinEmptyFirst(rest, delim);
      assert s == delim + s[|delim|..];
    } else {
      var rest := Split(s[1..], delim);
      JoinSplit(s[1..], delim);
      JoinExtendsFirst([s[0]], rest, delim);
      assert [s[0]] + s[1..] == s;
    }
  }

  // ---------------------------------------------------------------------------
  // Int.toString

  function DigitChar(d: nat): (c: char)
    requires d < 10
    ensures '0' <= c <= '9'
  {
    ('0' as int + d) as char
  }

  /** Decimal digits of a natural number, without leading zeros. */
  function NatToString(n: nat): (r: string)
    ensures |r| >= 1
    ensures forall k :: 0 <= k < |r| ==> '0' <= r[k] <= '9'
    ensures n >= 10 ==> |r| >= 2
    decreases n
  {
    if n < 10 then [DigitChar(n)] else NatToString(n / 10) + [DigitChar(n % 10)]
  }

  /** Kotlin's `Int.toString()`. */
  function IntToString(i: int): (r: string)
    ensures r != [] && !IsWhitespace(r[0]) && !IsBlank(r)
  {
    if i < 0 then "-" + NatToString(-i) else NatToString(i)
  }

  lemma {:induction false} NatToStringInjective(a: nat, b: nat)
    requires NatToString(a) == NatToString(b)
    ensures a == b
    decreases a
  {
    var sa, sb := NatToString(a), NatToString(b);
    if a >= 10 && b >= 10 {
      var pa, pb := NatToString(a / 10), NatToString(b / 10);
      assert sa[..|sa| - 1] == pa && sb[..|sb| - 1] == pb;
      assert sa[|sa| - 1] == DigitChar(a % 10) && sb[|sb| - 1] == DigitChar(b % 10);
      NatToStringInjective(a / 10, b / 10);
    } else if a < 10 && b < 10 {
      assert sa[0] == DigitChar(a) && sb[0] == DigitChar(b);
    }
  }

  /** A printed number starts with '-' exactly when it is negative. */
  lemma IntToStringSign(i: int)
    ensures |IntToString(i)| >= 1 && (IntToString(i)[0] == '-' <==> i < 0)
  {
    if i >= 0 {
      assert '0' <= NatToString(i)[0] <= '9';
    }
  }

  /** Different numbers print differently. */
  lemma IntToStringInjective(a: int, b: int)
    requires IntToString(a) == IntToString(b)
    ensures a == b
  {
    var sa, sb := IntToString(a), IntToString(b);
    IntToStringSign(a);
    IntToStringSign(b);
    if a < 0 && b < 0 {
      assert sa[1..] == NatToString(-a) && sb[1..] == NatToString(-b);
      NatToStringInjective(-a, -b);
    } else if a >= 0 && b >= 0 {
      assert sa == NatToString(a) && sb == NatToString(b);
      NatToStringInjective(a, b);
    }
  }

  // ---------------------------------------------------------------------------
  // String.compareTo

  /** `a.compareTo(b) < 0`: lexicographic order by character, a proper prefix first. */
  predicate Less(a: string, b: string)
    decreases |a|
  {
    if a == [] then b != [] else b != [] && (a[0] < b[0] || (a[0] == b[0] && Less(a[1..], b[1..])))
  }

  lemma {:induction false} LessIrreflexive(a: string)
    ensures !Less(a, a)
    decreases |a|
  {
    if a != [] {
      LessIrreflexive(a[1..]);
    }
  }

  lemma {:induction false} LessTransitive(a: string, b: string, c: string)
    requires Less(a, b) && Less(b, c)
    ensures Less(a, c)
    decreases |a|
  {
    if a != [] && a[0] == b[0] && b[0] == c[0] {
      LessTransitive(a[1..], b[1..], c[1..]);
    }
  }

  lemma {:induction false} LessTotal(a: string, b: string)
    requires a != b
    ensures Less(a, b) || Less(b, a)
    decreases |a|
  {
    if a != [] && b != [] && a[0] == b[0] {
      assert a == [a[0]] + a[1..] && b == [b[0]] + b[1..];
      LessTotal(a[1..], b[1..]);
    }
  }
}
