/** The poem detail screen's state (`PoemDetailViewModel`): the reading text
    size, stepped between a minimum and a maximum and persisted on change,
    and the poem looked up by id in the repository's list. */
module PoemDetail {
  import opened Wrappers
  import opened Poems
  import PoemStore

  const DefaultTextSize: int := 16
  const MinTextSize: int := 12
  const MaxTextSize: int := 24
  const TextSizeStep: int := 2

  /** The three size buttons. */
  datatype SizeAction = Increase | Decrease | Reset

  /** The size shown after one action, from the size shown before. */
  function Next(current: int, action: SizeAction): int {
    match action
    case Increase => if current + TextSizeStep <= MaxTextSize then current + TextSizeStep else MaxTextSize
    case Decrease => if current - TextSizeStep >= MinTextSize then current - TextSizeStep else MinTextSize
    case Reset => DefaultTextSize
  }

  /** The size after a sequence of actions, in order. */
  function Run(current: int, actions: seq<SizeAction>): int
    decreases |actions|
  {
    if actions == [] then current else Run(Next(current, actions[0]), actions[1..])
  }

  /** A size inside the range stays inside it after any one action. */
  lemma NextInRange(current: int, action: SizeAction)
    requires MinTextSize <= current <= MaxTextSize
    ensures MinTextSize <= Next(current, action) <= MaxTextSize
  {
  }

  /** Starting inside the range, no sequence of actions leaves it. */
  lemma {:induction false} RunInRange(current: int, actions: seq<SizeAction>)
    requires MinTextSize <= current <= MaxTextSize
    ensures MinTextSize <= Run(current, actions) <= MaxTextSize
    decreases |actions|
  {
    if actions != [] {
      NextInRange(current, actions[0]);
      RunInRange(Next(current, actions[0]), actions[1..]);
    }
  }

  /** Increase changes the size unless it is at the maximum, and decrease
      unless it is at the minimum; from outside the range one step brings
      the size to the bound it passed. */
  lemma StepChangesUnlessAtBound(current: int)
    ensures Next(current, Increase) == current <==> current == MaxTextSize
    ensures Next(current, Decrease) == current <==> current == MinTextSize
    ensures current > MaxTextSize ==> Next(current, Increase) == MaxTextSize
    ensures current < MinTextSize ==> Next(current, Decrease) == MinTextSize
  {
  }

  /** Below the maximum, a decrease undoes an increase; above the minimum,
      an increase undoes a decrease. */
  lemma StepsUndo(current: int)
    ensures MinTextSize <= current <= MaxTextSize - TextSizeStep ==> Next(Next(current, Increase), Decrease) == current
    ensures MinTextSize + TextSizeStep <= current <= MaxTextSize ==> Next(Next(current, Decrease), Increase) == current
  {
  }

  class PoemDetailViewModel {
    const repository: PoemStore.PoemRepository
    /** `_textSize.value`. */
    var textSize: Option<int>
    /** The "text_size" entry of the "poem_preferences" file. */
    var storedSize: Option<int>
    /** `_poem.value`. */
    var poem: Option<Poem>

    /** `init`: the shown size is the stored one, or the default when none is stored. */
    constructor (repository: PoemStore.PoemRepository, storedSize: Option<int>)
      ensures this.repository == repository && this.storedSize == storedSize
      ensures textSize == Some(storedSize.GetOr(DefaultTextSize)) && poem == None
    {
      this.repository := repository;
      this.storedSize := storedSize;
      textSize := Some(storedSize.GetOr(DefaultTextSize));
      poem := None;
    }

    /** `getTextSize`: the shown size, the default when none is set. */
    function GetTextSize(): (r: int)
      reads this
      ensures textSize.None? ==> r == DefaultTextSize
      ensures textSize.Some? ==> r == textSize.value
    {
      textSize.GetOr(DefaultTextSize)
    }

    /** `saveTextSize`. */
    method SaveTextSize(size: int)
      modifies this
      ensures storedSize == Some(size)
      ensures textSize == old(textSize) && poem == old(poem)
    {
      storedSize := Some(size);
    }

    /** `increaseTextSize`: one step up, capped at the maximum; shown and
        stored only when the size changes. */
    method IncreaseTextSize()
      modifies this
      ensures GetTextSize() == Next(old(GetTextSize()), Increase)
      ensures GetTextSize() != old(GetTextSize()) ==> textSize == Some(GetTextSize()) && storedSize == textSize
      ensures GetTextSize() == old(GetTextSize()) ==> textSize == old(textSize) && storedSize == old(storedSize)
      ensures poem == old(poem)
    {
      var currentSize := textSize.GetOr(DefaultTextSize);
      var newSize := if currentSize + TextSizeStep <= MaxTextSize then currentSize + TextSizeStep else MaxTextSize;
      if newSize != currentSize {
        textSize := Some(newSize);
        SaveTextSize(newSize);
      }
    }

    /** `decreaseTextSize`: one step down, floored at the minimum; shown and
        stored only when the size changes. */
    method DecreaseTextSize()
      modifies this
      ensures GetTextSize() == Next(old(GetTextSize()), Decrease)
      ensures GetTextSize() != old(GetTextSize()) ==> textSize == Some(GetTextSize()) && storedSize == textSize
      ensures GetTextSize() == old(GetTextSize()) ==> textSize == old(textSize) && storedSize == old(storedSize)
      ensures poem == old(poem)
    {
      var currentSize := textSize.GetOr(DefaultTextSize);
      var newSize := if currentSize - TextSizeStep >= MinTextSize then currentSize - TextSizeStep else MinTextSize;
      if newSize != currentSize {
        textSize := Some(newSize);
        SaveTextSize(newSize);
      }
    }

    /** `resetTextSize`: the default, shown and stored unless it is already
        the value set (an unset value counts as different). */
    method ResetTextSize()
      modifies this
      ensures GetTextSize() == Next(old(GetTextSize()), Reset)
      ensures old(textSize) != Some(DefaultTextSize) ==> textSize == Some(DefaultTextSize) && storedSize == textSize
      ensures old(textSize) == Some(DefaultTextSize) ==> textSize == old(textSize) && storedSize == old(storedSize)
      ensures poem == old(poem)
    {
      if textSize != Some(DefaultTextSize) {
        textSize := Some(DefaultTextSize);
        SaveTextSize(DefaultTextSize);
      }
    }

    /** The look-up in `loadPoem`: with poems in the repository, the first
        one with the id, or none; with no poems yet, nothing changes. */
    method LoadPoem(id: int)
      modifies this
      ensures repository.poemsCache != [] ==> poem == repository.GetPoemById(id)
      ensures repository.poemsCache == [] ==> poem == old(poem)
      ensures textSize == old(textSize) && storedSize == old(storedSize)
    {
      var poemsList := repository.poemsCache;
      if poemsList != [] {
        var index := PoemStore.IndexOfId(poemsList, id);
        if index != -1 {
          poem := Some(poemsList[index]);
        } else {
          poem := None;
        }
      }
    }
  }
}
