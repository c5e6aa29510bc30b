/** The corpus text parser (`PoemParser.parsePoems`), reading the whole text
    as a string.  Poems are separated by three line breaks; a block holds a
    title line, an author line, a tag line, the lines of the poem, a blank
    line and the lines of the translation. */
module PoemParser {
  import opened Wrappers
  import KotlinText
  import Seqs
  import opened Poems

  const BlockSeparator: string := "\n\n\n"
  const TagsPrefix: string := "Tags:"

  // ---------------------------------------------------------------------------
  // text and blocks

  /** The text with CRLF replaced by LF, then trimmed. */
  function Normalized(text: string): string {
    KotlinText.Trim(KotlinText.Replace(text, "\r\n", "\n", false))
  }

  /** The blocks of the corpus: the normalised text split on three line breaks. */
  function Blocks(text: string): seq<string> {
    KotlinText.Split(Normalized(text), BlockSeparator)
  }

  /** The lines of a block. */
  function Lines(block: string): seq<string> {
    KotlinText.Split(block, "\n")
  }

  /** A text without carriage returns is only trimmed. */
  lemma NoCarriageReturnOnlyTrims(text: string)
    requires forall k :: 0 <= k < |text| ==> text[k] != '\r'
    ensures Normalized(text) == KotlinText.Trim(text)
  {
    forall k | 0 <= k <= |text| - 2
      ensures !KotlinText.RegionMatches(text, k, "\r\n", false)
    {
      assert !KotlinText.CharEquals(text[k], "\r\n"[0], false);
    }
    KotlinText.ReplaceAbsent(text, "\r\n", "\n", false);
  }

  // ---------------------------------------------------------------------------
  // tags

  /** The tags of a block from its trimmed third line: the pieces after
      "Tags:" between commas, each trimmed; none without that prefix. */
  function TagsOf(tagsLine: string): seq<string> {
    if KotlinText.StartsWith(tagsLine, TagsPrefix) then
      var pieces := KotlinText.Split(tagsLine[|TagsPrefix|..], ",");
      seq(|pieces|, k requires 0 <= k < |pieces| => KotlinText.Trim(pieces[k]))
    else []
  }

  /** A tag line gives at least one tag, each trimmed; any other line gives none. */
  lemma TagsShape(tagsLine: string)
    ensures KotlinText.StartsWith(tagsLine, TagsPrefix) ==> |TagsOf(tagsLine)| >= 1
    ensures !KotlinText.StartsWith(tagsLine, TagsPrefix) ==> TagsOf(tagsLine) == []
    ensures forall k :: 0 <= k < |TagsOf(tagsLine)| ==> KotlinText.Trim(TagsOf(tagsLine)[k]) == TagsOf(tagsLine)[k]
  {
    var tags := TagsOf(tagsLine);
    forall k | 0 <= k < |tags| ensures KotlinText.Trim(tags[k]) == tags[k] {
      var pieces := KotlinText.Split(tagsLine[|TagsPrefix|..], ",");
      KotlinText.TrimIdempotent(pieces[k]);
    }
  }

  // ---------------------------------------------------------------------------
  // the poem and translation sections

  /** The line that switches to the translation: only whitespace, so that
      `lines[i].trim().isEmpty()` holds (see `BlankLineIffTrimEmpty`).
      Stated character by character so that the proofs about whole blocks
      do not look inside lines. */
  predicate BlankLine(line: string)
    decreases |line|
  {
    line == [] || (KotlinText.IsWhitespace(line[0]) && BlankLine(line[1..]))
  }

  lemma {:induction false} BlankLineIsBlank(line: string)
    ensures BlankLine(line) <==> KotlinText.IsBlank(line)
    decreases |line|
  {
    if line != [] {
      BlankLineIsBlank(line[1..]);
      assert forall k :: 1 <= k < |line| ==> line[k] == line[1..][k - 1];
    }
  }

  lemma BlankLineIffTrimEmpty(line: string)
    ensures BlankLine(line) <==> KotlinText.Trim(line) == []
  {
    BlankLineIsBlank(line);
    KotlinText.TrimEmptyIffBlank(line);
  }

  /** What a line from the fourth on contributes: nothing when blank,
      otherwise the trimmed line. */
  function StoredLine(line: string): Option<string> {
    if BlankLine(line) then None else Some(KotlinText.Trim(line))
  }

  /** The index of the first blank line at or after `from`, or the number of lines. */
  function FirstBlankFrom(lines: seq<string>, from: nat): (b: nat)
    requires from <= |lines|
    ensures from <= b <= |lines|
    ensures forall k :: from <= k < b ==> !BlankLine(lines[k])
    ensures b < |lines| ==> BlankLine(lines[b])
    decreases |lines| - from
  {
    if from == |lines| then |lines|
    else if BlankLine(lines[from]) then from
    else FirstBlankFrom(lines, from + 1)
  }

  /** The poem's own lines: those from the fourth up to the first blank line, trimmed. */
  function ContentLines(lines: seq<string>): seq<string>
    requires |lines| >= 3
  {
    Seqs.FilterMap(lines[3..FirstBlankFrom(lines, 3)], StoredLine)
  }

  /** The translation: the non-blank lines after the first blank line, trimmed. */
  function TranslationOf(lines: seq<string>): seq<string>
    requires |lines| >= 3
  {
    var b := FirstBlankFrom(lines, 3);
    if b < |lines| then Seqs.FilterMap(lines[b + 1..], StoredLine) else []
  }

  /** The state of the section loop after the lines before `i`: whether it has
      switched to the translation, and what each list holds so far. */
  ghost predicate Splitting(lines: seq<string>, i: nat, inTranslation: bool, content: seq<string>, translation: seq<string>) {
    3 <= i <= |lines|
    && var b := FirstBlankFrom(lines, 3);
    (inTranslation <==> b < i)
    && (!inTranslation ==> content == Seqs.FilterMap(lines[3..i], StoredLine) && translation == [])
    && (inTranslation ==> content == Seqs.FilterMap(lines[3..b], StoredLine)
                          && translation == Seqs.FilterMap(lines[b + 1..i], StoredLine))
  }

  /** A blank line switches to (or stays in) the translation and stores nothing. */
  lemma SplittingBlank(lines: seq<string>, i: nat, inTranslation: bool, content: seq<string>, translation: seq<string>)
    requires i < |lines| && Splitting(lines, i, inTranslation, content, translation)
    requires BlankLine(lines[i])
    ensures Splitting(lines, i + 1, true, content, translation)
  {
    var b := FirstBlankFrom(lines, 3);
    if inTranslation {
      Seqs.FilterMapRangeStep(lines, b + 1, i, StoredLine);
      Seqs.ConcatEmpty(translation);
    } else {
      assert b == i;
      Seqs.ConcatEmpty(content);
    }
  }

  /** Any other line is stored, trimmed, in the current section. */
  lemma SplittingStored(lines: seq<string>, i: nat, inTranslation: bool, content: seq<string>, translation: seq<string>)
    requires i < |lines| && Splitting(lines, i, inTranslation, content, translation)
    requires !BlankLine(lines[i])
    ensures !inTranslation ==> Splitting(lines, i + 1, false, content + [StoredLine(lines[i]).value], translation)
    ensures inTranslation ==> Splitting(lines, i + 1, true, content, translation + [StoredLine(lines[i]).value])
  {
    var b := FirstBlankFrom(lines, 3);
    if inTranslation {
      Seqs.FilterMapRangeStep(lines, b + 1, i, StoredLine);
    } else {
      Seqs.FilterMapRangeStep(lines, 3, i, StoredLine);
    }
  }

  lemma SplittingDone(lines: seq<string>, inTranslation: bool, content: seq<string>, translation: seq<string>)
    requires Splitting(lines, |lines|, inTranslation, content, translation)
    ensures content == ContentLines(lines) && translation == TranslationOf(lines)
  {
    var b := FirstBlankFrom(lines, 3);
    if inTranslation {
      assert lines[b + 1..|lines|] == lines[b + 1..];
    }
  }

  /** `lines[i].trim()`, and what it tells the section loop: it is empty
      exactly for a blank line, and is otherwise the line as stored. */
  method TrimmedLine(line: string) returns (t: string)
    ensures t == [] <==> BlankLine(line)
    ensures !BlankLine(line) ==> StoredLine(line) == Some(t)
  {
    t := KotlinText.Trim(line);
    BlankLineIffTrimEmpty(line);
  }

  /** The loop over the lines from the fourth on, with its `section` flag. */
  method SplitSections(lines: seq<string>) returns (content: seq<string>, translation: seq<string>)
    requires |lines| >= 3
    ensures content == ContentLines(lines) && translation == TranslationOf(lines)
  {
    content := [];
    translation := [];
    var inTranslation := false;
    for i := 3 to |lines|
      invariant Splitting(lines, i, inTranslation, content, translation)
    {
      var trimmed := TrimmedLine(lines[i]);
      if trimmed == [] {
        SplittingBlank(lines, i, inTranslation, content, translation);
        inTranslation := true;
        continue;
      }
      SplittingStored(lines, i, inTranslation, content, translation);
      if !inTranslation {
        content := content + [trimmed];
      } else {
        translation := translation + [trimmed];
      }
    }
    SplittingDone(lines, inTranslation, content, translation);
  }

  /** Together the two sections are exactly the non-blank lines from the
      fourth on, trimmed and in order: the first blank line only marks where
      the translation starts. */
  lemma SectionsPartitionLines(lines: seq<string>)
    requires |lines| >= 3
    ensures ContentLines(lines) + TranslationOf(lines) == Seqs.FilterMap(lines[3..], StoredLine)
  {
    var b := FirstBlankFrom(lines, 3);
    if b < |lines| {
      Seqs.FilterMapSkip(lines, 3, b, StoredLine);
    } else {
      assert lines[3..b] == lines[3..];
      Seqs.ConcatEmpty(ContentLines(lines));
    }
  }

  /** A stored text: not blank, and unchanged by `trim()`. */
  predicate Clean(l: string) {
    !KotlinText.IsBlank(l) && KotlinText.Trim(l) == l
  }

  /** A line that is stored at all is stored clean. */
  lemma StoredLineClean(line: string)
    ensures StoredLine(line).Some? ==> Clean(StoredLine(line).value)
  {
    if !BlankLine(line) {
      BlankLineIsBlank(line);
      KotlinText.TrimIdempotent(line);
      KotlinText.TrimNonBlank(line);
    }
  }

  /** Every stored line is non-blank and trimmed. */
  lemma StoredLinesClean(lines: seq<string>)
    requires |lines| >= 3
    ensures forall l :: l in ContentLines(lines) + TranslationOf(lines) ==> Clean(l)
  {
    var rest := lines[3..];
    SectionsPartitionLines(lines);
    Seqs.FilterMapSound(rest, StoredLine);
    forall l | l in Seqs.FilterMap(rest, StoredLine)
      ensures Clean(l)
    {
      var k :| 0 <= k < |rest| && StoredLine(rest[k]) == Some(l);
      StoredLineClean(rest[k]);
    }
  }

  /** Without a blank line the whole rest of the block is the poem. */
  lemma NoBlankNoTranslation(lines: seq<string>)
    requires |lines| >= 3
    requires forall k :: 3 <= k < |lines| ==> !BlankLine(lines[k])
    ensures TranslationOf(lines) == []
    ensures ContentLines(lines) == Seqs.FilterMap(lines[3..], StoredLine)
  {
    var b := FirstBlankFrom(lines, 3);
    assert b == |lines|;
    assert lines[3..b] == lines[3..];
  }

  // ---------------------------------------------------------------------------
  // poems

  /** The poem a block yields, if it has at least three lines; its id is the
      block's index and it is not a favourite. */
  function PoemOf(index: int, block: string): Option<Poem> {
    var lines := Lines(block);
    if |lines| >= 3 then
      Some(Poem(index, KotlinText.Trim(lines[0]), KotlinText.Trim(lines[1]),
        TagsOf(KotlinText.Trim(lines[2])), ContentLines(lines), TranslationOf(lines), false))
    else None
  }

  function PoemAt(entry: (int, string)): Option<Poem> {
    PoemOf(entry.0, entry.1)
  }

  /** The poems of a corpus text. */
  function Parsed(text: string): seq<Poem> {
    Seqs.FilterMap(Seqs.Indexed(Blocks(text)), PoemAt)
  }

  /** `parsePoems`. */
  method ParsePoems(text: string) returns (poems: seq<Poem>)
    ensures poems == Parsed(text)
  {
    var normalizedText := KotlinText.Trim(KotlinText.Replace(text, "\r\n", "\n", false));
    var poemsData := KotlinText.Split(normalizedText, BlockSeparator);
    ghost var indexed := Seqs.Indexed(poemsData);
    poems := [];
    for index := 0 to |poemsData|
      invariant poems == Seqs.FilterMap(indexed[..index], PoemAt)
    {
      Seqs.FilterMapStep(indexed, index, PoemAt);
      var lines := KotlinText.Split(poemsData[index], "\n");
      if |lines| >= 3 {
        var title := KotlinText.Trim(lines[0]);
        var author := KotlinText.Trim(lines[1]);
        var tagsLine := KotlinText.Trim(lines[2]);
        var tags := TagsOf(tagsLine);
        var content, translation := SplitSections(lines);
        poems := poems + [Poem(index, title, author, tags, content, translation, false)];
      } else {
        Seqs.ConcatEmpty(poems);
      }
    }
    assert indexed[..|poemsData|] == indexed;
  }

  /** The id of a poem, the key its block's index becomes. */
  function IdOf(p: Poem): int {
    p.id
  }

  /** A block that yields a poem gives it the block's index as id. */
  lemma PoemAtKeepsIndex(blocks: seq<string>)
    ensures forall k :: 0 <= k < |blocks| && PoemAt((k, blocks[k])).Some? ==> IdOf(PoemAt((k, blocks[k])).value) == k
  {
  }

  /** Parsed poems have distinct ids in increasing order, each the index of
      the block it came from, and none starts as a favourite. */
  lemma ParsedIds(text: string)
    ensures var ps := Parsed(text);
      var blocks := Blocks(text);
      (forall k :: 0 <= k < |ps| ==>
        0 <= ps[k].id < |blocks| && PoemOf(ps[k].id, blocks[ps[k].id]) == Some(ps[k]) && !ps[k].isFavorite)
      && (forall j, k :: 0 <= j < k < |ps| ==> ps[j].id < ps[k].id)
  {
    var blocks := Blocks(text);
    var indexed := Seqs.Indexed(blocks);
    var ps := Parsed(text);
    PoemAtKeepsIndex(blocks);
    Seqs.FilterMapIndexedAllKeys(blocks, PoemAt, IdOf, ps);
    forall k | 0 <= k < |ps|
      ensures !ps[k].isFavorite
    {
      assert PoemAt((IdOf(ps[k]), blocks[IdOf(ps[k])])) == Some(ps[k]);
    }
  }

  /** Every block of three or more lines yields its poem. */
  lemma ParsedComplete(text: string)
    ensures forall i :: 0 <= i < |Blocks(text)| && |Lines(Blocks(text)[i])| >= 3 ==>
      PoemOf(i, Blocks(text)[i]).value in Parsed(text)
  {
    var blocks := Blocks(text);
    var indexed := Seqs.Indexed(blocks);
    Seqs.FilterMapComplete(indexed, PoemAt);
    forall i | 0 <= i < |blocks| && |Lines(blocks[i])| >= 3
      ensures PoemOf(i, blocks[i]).value in Parsed(text)
    {
      assert PoemAt(indexed[i]) == PoemOf(i, blocks[i]);
    }
  }

  /** Every field of a parsed poem is clean: title, author and tags trimmed,
      and every stored line non-blank and trimmed. */
  lemma ParsedClean(index: int, block: string)
    requires PoemOf(index, block).Some?
    ensures var p := PoemOf(index, block).value;
      KotlinText.Trim(p.title) == p.title && KotlinText.Trim(p.author) == p.author
      && (forall k :: 0 <= k < |p.tags| ==> KotlinText.Trim(p.tags[k]) == p.tags[k])
      && (forall l :: l in p.content + p.translation ==> Clean(l))
  {
    var lines := Lines(block);
    KotlinText.TrimIdempotent(lines[0]);
    KotlinText.TrimIdempotent(lines[1]);
    TagsShape(KotlinText.Trim(lines[2]));
    StoredLinesClean(lines);
  }
}
