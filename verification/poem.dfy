/** The poem record of the corpus (`Poem`). */
module Poems {
  /** One poem: its id is the index of its block in the corpus text. */
  datatype Poem = Poem(
    id: int,
    title: string,
    author: string,
    tags: seq<string>,
    content: seq<string>,
    translation: seq<string>,
    isFavorite: bool)
}
