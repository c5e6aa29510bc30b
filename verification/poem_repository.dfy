/** The in-memory poem repository (`PoemRepository`): the parsed corpus with
    favourite flags stamped from the stored favourites set, the queries over
    it (by id, search, tags, favourites) and the favourite toggle that keeps
    the flags and the set in step. */
module PoemStore {
  import opened Wrappers
  import KotlinText
  import Seqs
  import opened Poems
  import PoemParser

  /** The string a poem's id is stored under in the favourites set. */
  function FavoriteKey(id: int): string {
    KotlinText.IntToString(id)
  }

  // ---------------------------------------------------------------------------
  // favourite flags

  /** `poem.copy(isFavorite = favoritesSet.contains(poem.id.toString()))` for every poem. */
  function Stamped(ps: seq<Poem>, favorites: set<string>): (r: seq<Poem>)
    ensures |r| == |ps|
  {
    seq(|ps|, k requires 0 <= k < |ps| => ps[k].(isFavorite := FavoriteKey(ps[k].id) in favorites))
  }

  /** No two cached poems share an id. */
  ghost predicate UniqueIds(cache: seq<Poem>) {
    forall i, j :: 0 <= i < j < |cache| ==> cache[i].id != cache[j].id
  }

  /** Every cached poem is flagged exactly when its id is in the favourites set. */
  ghost predicate FavoritesAgree(cache: seq<Poem>, favorites: set<string>) {
    forall k :: 0 <= k < |cache| ==> (cache[k].isFavorite <==> FavoriteKey(cache[k].id) in favorites)
  }

  /** Stamping changes only the favourite flags, and leaves them agreeing with the set. */
  lemma StampedAgrees(ps: seq<Poem>, favorites: set<string>)
    ensures FavoritesAgree(Stamped(ps, favorites), favorites)
    ensures forall k :: 0 <= k < |ps| ==> Stamped(ps, favorites)[k].(isFavorite := ps[k].isFavorite) == ps[k]
    ensures UniqueIds(ps) ==> UniqueIds(Stamped(ps, favorites))
  {
  }

  /** Parsed poems have distinct ids. */
  lemma ParsedUniqueIds(text: string)
    ensures UniqueIds(PoemParser.Parsed(text))
  {
    PoemParser.ParsedIds(text);
  }

  // ---------------------------------------------------------------------------
  // search

  /** `text.lowercase().contains(q)`. */
  predicate Mentions(text: string, q: string) {
    KotlinText.Contains(KotlinText.Lowercase(text), q)
  }

  /** `texts.any { it.lowercase().contains(q) }`. */
  predicate AnyMentions(texts: seq<string>, q: string) {
    exists k :: 0 <= k < |texts| && Mentions(texts[k], q)
  }

  /** The search test of one poem against the normalised query. */
  predicate Matches(p: Poem, q: string) {
    Mentions(p.title, q) || Mentions(p.author, q) || AnyMentions(p.content, q)
    || AnyMentions(p.tags, q) || AnyMentions(p.translation, q)
  }

  /** The query as compared: trimmed, then lowercased. */
  function NormalizedQuery(query: string): string {
    KotlinText.Lowercase(KotlinText.Trim(query))
  }

  // ---------------------------------------------------------------------------
  // tags

  /** `flatMap { it.tags }`. */
  function AllTagsOf(cache: seq<Poem>): seq<string> {
    if cache == [] then [] else cache[0].tags + AllTagsOf(cache[1..])
  }

  /** The flattened tags are exactly the tags of some poem. */
  lemma {:induction false} AllTagsOfMembers(cache: seq<Poem>)
    ensures forall t :: t in AllTagsOf(cache) <==> exists k :: 0 <= k < |cache| && t in cache[k].tags
  {
    if cache != [] {
      var rest := cache[1..];
      AllTagsOfMembers(rest);
      forall t
        ensures t in AllTagsOf(cache) <==> exists k :: 0 <= k < |cache| && t in cache[k].tags
      {
        if t in AllTagsOf(rest) {
          var k :| 0 <= k < |rest| && t in rest[k].tags;
          assert cache[k + 1] == rest[k];
        }
        if exists k :: 1 <= k < |cache| && t in cache[k].tags {
          var k :| 1 <= k < |cache| && t in cache[k].tags;
          assert rest[k - 1] == cache[k];
        }
      }
    }
  }

  /** Ascending by `String.compareTo`, hence without duplicates. */
  predicate StrictlySorted(s: seq<string>) {
    forall i, j :: 0 <= i < j < |s| ==> KotlinText.Less(s[i], s[j])
  }

  /** `x` put into its place in a sorted list, unless it is already there. */
  function Insert(x: string, s: seq<string>): seq<string>
    decreases |s|
  {
    if s == [] then [x]
    else if x == s[0] then s
    else if KotlinText.Less(x, s[0]) then [x] + s
    else [s[0]] + Insert(x, s[1..])
  }

  lemma {:induction false} InsertMembers(x: string, s: seq<string>)
    ensures forall y :: y in Insert(x, s) <==> y == x || y in s
    decreases |s|
  {
    if s != [] && x != s[0] && !KotlinText.Less(x, s[0]) {
      InsertMembers(x, s[1..]);
      assert s == [s[0]] + s[1..];
    }
  }

  lemma {:induction false} InsertSorted(x: string, s: seq<string>)
    requires StrictlySorted(s)
    ensures StrictlySorted(Insert(x, s))
    decreases |s|
  {
    if s != [] && x != s[0] && !KotlinText.Less(x, s[0]) {
      KotlinText.LessTotal(x, s[0]);
      InsertSorted(x, s[1..]);
      InsertMembers(x, s[1..]);
      var r := Insert(x, s[1..]);
      forall j | 0 <= j < |r|
        ensures KotlinText.Less(s[0], r[j])
      {
        if r[j] != x {
          assert r[j] in s[1..];
          var k :| 0 <= k < |s[1..]| && s[1..][k] == r[j];
          assert s[k + 1] == r[j];
        }
      }
    } else if s != [] && KotlinText.Less(x, s[0]) {
      forall j | 0 < j < |s|
        ensures KotlinText.Less(x, s[j])
      {
        KotlinText.LessTransitive(x, s[0], s[j]);
      }
    }
  }

  /** `distinct().sorted()`, by insertion. */
  function SortedDistinct(ts: seq<string>): seq<string>
    decreases |ts|
  {
    if ts == [] then [] else Insert(ts[|ts| - 1], SortedDistinct(ts[..|ts| - 1]))
  }

  /** The result is strictly ascending and holds exactly the given strings. */
  lemma {:induction false} SortedDistinctSpec(ts: seq<string>)
    ensures StrictlySorted(SortedDistinct(ts))
    ensures forall y :: y in SortedDistinct(ts) <==> y in ts
    decreases |ts|
  {
    if ts != [] {
      var init := ts[..|ts| - 1];
      SortedDistinctSpec(init);
      InsertSorted(ts[|ts| - 1], SortedDistinct(init));
      InsertMembers(ts[|ts| - 1], SortedDistinct(init));
      assert ts == init + [ts[|ts| - 1]];
    }
  }

  /** Two strictly ascending lists with the same members are the same list,
      so any way of sorting the distinct tags gives this one. */
  lemma {:induction false} StrictlySortedUnique(a: seq<string>, b: seq<string>)
    requires StrictlySorted(a) && StrictlySorted(b)
    requires forall y :: y in a <==> y in b
    ensures a == b
    decreases |a|
  {
    if a != [] {
      assert a[0] in b;
    }
    if b != [] {
      assert b[0] in a;
    }
    if a != [] && b != [] {
      if a[0] != b[0] {
        var i :| 0 <= i < |b| && b[i] == a[0];
        var j :| 0 <= j < |a| && a[j] == b[0];
        KotlinText.LessTransitive(a[0], b[0], a[0]);
        KotlinText.LessIrreflexive(a[0]);
        assert false;
      }
      var a', b' := a[1..], b[1..];
      forall y
        ensures y in a' <==> y in b'
      {
        if y in a' {
          var k :| 0 <= k < |a'| && a'[k] == y;
          assert a[k + 1] == y && KotlinText.Less(a[0], y);
          KotlinText.LessIrreflexive(a[0]);
          assert y in a && y in b;
          var j :| 0 <= j < |b| && b[j] == y;
          assert j > 0 && b'[j - 1] == y;
        }
        if y in b' {
          var k :| 0 <= k < |b'| && b'[k] == y;
          assert b[k + 1] == y && KotlinText.Less(b[0], y);
          KotlinText.LessIrreflexive(b[0]);
          assert y in b && y in a;
          var j :| 0 <= j < |a| && a[j] == y;
          assert j > 0 && a'[j - 1] == y;
        }
      }
      StrictlySortedUnique(a', b');
      assert a == [a[0]] + a' && b == [b[0]] + b';
    }
  }

  // ---------------------------------------------------------------------------
  // the favourite toggle

  /** The position `indexOfFirst { it.id == id }`, or -1. */
  function IndexOfId(cache: seq<Poem>, id: int): (i: int)
    ensures -1 <= i < |cache|
    ensures i >= 0 ==> cache[i].id == id && forall k :: 0 <= k < i ==> cache[k].id != id
    ensures i == -1 ==> forall k :: 0 <= k < |cache| ==> cache[k].id != id
  {
    Seqs.IndexOfFirst(cache, (p: Poem) => p.id == id)
  }

  /** The cache after `toggleFavorite(id)`. */
  function ToggledPoems(cache: seq<Poem>, id: int): seq<Poem> {
    var i := IndexOfId(cache, id);
    if i == -1 then cache else cache[i := cache[i].(isFavorite := !cache[i].isFavorite)]
  }

  /** The favourites set after `toggleFavorite(id)`. */
  function ToggledFavorites(cache: seq<Poem>, favorites: set<string>, id: int): set<string> {
    var i := IndexOfId(cache, id);
    if i == -1 then favorites
    else if !cache[i].isFavorite then favorites + {FavoriteKey(id)}
    else favorites - {FavoriteKey(id)}
  }

  /** Toggling an id no cached poem has changes nothing. */
  lemma ToggleUnknown(cache: seq<Poem>, favorites: set<string>, id: int)
    requires forall k :: 0 <= k < |cache| ==> cache[k].id != id
    ensures ToggledPoems(cache, id) == cache && ToggledFavorites(cache, favorites, id) == favorites
  {
  }

  /** Toggling changes only the first poem with the id, and only in its
      flag; the set gains the id when the new flag is set and loses it when
      it is cleared, and is otherwise unchanged. */
  lemma ToggleFirst(cache: seq<Poem>, favorites: set<string>, id: int, i: nat)
    requires i < |cache| && cache[i].id == id && forall k :: 0 <= k < i ==> cache[k].id != id
    ensures |ToggledPoems(cache, id)| == |cache|
    ensures ToggledPoems(cache, id)[i] == cache[i].(isFavorite := !cache[i].isFavorite)
    ensures forall k :: 0 <= k < |cache| && k != i ==> ToggledPoems(cache, id)[k] == cache[k]
    ensures ToggledFavorites(cache, favorites, id) ==
      if cache[i].isFavorite then favorites - {FavoriteKey(id)} else favorites + {FavoriteKey(id)}
  {
    assert IndexOfId(cache, id) == i;
  }

  /** With distinct ids, toggling keeps the flags and the set in agreement. */
  lemma TogglePreservesAgreement(cache: seq<Poem>, favorites: set<string>, id: int)
    requires UniqueIds(cache) && FavoritesAgree(cache, favorites)
    ensures UniqueIds(ToggledPoems(cache, id))
    ensures FavoritesAgree(ToggledPoems(cache, id), ToggledFavorites(cache, favorites, id))
  {
    var i := IndexOfId(cache, id);
    if i != -1 {
      var r := ToggledPoems(cache, id);
      var f := ToggledFavorites(cache, favorites, id);
      forall k | 0 <= k < |r|
        ensures r[k].isFavorite <==> FavoriteKey(r[k].id) in f
      {
        if k != i {
          if FavoriteKey(cache[k].id) == FavoriteKey(id) {
            KotlinText.IntToStringInjective(cache[k].id, id);
          }
        }
      }
    }
  }

  /** Toggling the same id twice restores the cache and, while the flag of
      that poem agrees with the set, the set too. */
  lemma ToggleTwiceRestores(cache: seq<Poem>, favorites: set<string>, id: int)
    requires FavoritesAgree(cache, favorites)
    ensures ToggledPoems(ToggledPoems(cache, id), id) == cache
    ensures ToggledFavorites(ToggledPoems(cache, id), ToggledFavorites(cache, favorites, id), id) == favorites
  {
    var i := IndexOfId(cache, id);
    if i != -1 {
      var r := ToggledPoems(cache, id);
      assert r == cache[i := cache[i].(isFavorite := !cache[i].isFavorite)];
      var j := IndexOfId(r, id);
      assert r[i].id == id;
      assert j != -1 && j <= i;
      assert cache[j].id == r[j].id == id;
      assert j == i;
      assert r[i].isFavorite == !cache[i].isFavorite;
      assert ToggledPoems(r, id) == r[i := r[i].(isFavorite := cache[i].isFavorite)];
    }
  }

  class PoemRepository {
    /** `poemsCache`. */
    var poemsCache: seq<Poem>
    /** The "favorites" string set of the "PoemPrefs" preference file. */
    var favorites: set<string>

    /** The cache holds distinct ids and its flags agree with the stored set. */
    ghost predicate Valid()
      reads this
    {
      UniqueIds(poemsCache) && FavoritesAgree(poemsCache, favorites)
    }

    /** A repository before anything is loaded, over the stored favourites. */
    constructor (favorites: set<string>)
      ensures poemsCache == [] && this.favorites == favorites && Valid()
    {
      poemsCache := [];
      this.favorites := favorites;
    }

    /** `processAndUpdatePoems`: the parsed corpus with its flags stamped
        from the stored set becomes the cache. */
    method ProcessAndUpdatePoems(text: string)
      modifies this
      ensures poemsCache == Stamped(PoemParser.Parsed(text), favorites) && favorites == old(favorites)
      ensures Valid()
    {
      var poemsList := PoemParser.ParsePoems(text);
      var favoritesSet := favorites;
      ParsedUniqueIds(text);
      StampedAgrees(poemsList, favoritesSet);
      poemsCache := Stamped(poemsList, favoritesSet);
    }

    /** `getPoemById`: the first cached poem with the id, if any. */
    function GetPoemById(id: int): (r: Option<Poem>)
      reads this
      ensures r.None? <==> forall k :: 0 <= k < |poemsCache| ==> poemsCache[k].id != id
      ensures r.Some? ==> exists k :: 0 <= k < |poemsCache| && poemsCache[k] == r.value && r.value.id == id
                                 && (forall j :: 0 <= j < k ==> poemsCache[j].id != id)
    {
      var i := IndexOfId(poemsCache, id);
      if i == -1 then None else Some(poemsCache[i])
    }

    /** `searchPoems`: nothing for a blank query; otherwise the cached poems
        matching the normalised query, in cache order. */
    function SearchPoems(query: string): (r: seq<Poem>)
      reads this
      ensures KotlinText.IsBlank(query) ==> r == []
      ensures !KotlinText.IsBlank(query) ==> Seqs.Subseq(r, poemsCache)
      ensures !KotlinText.IsBlank(query) ==>
        forall p :: p in r <==> p in poemsCache && Matches(p, NormalizedQuery(query))
    {
      if KotlinText.IsBlank(query) then []
      else
        var q := NormalizedQuery(query);
        var keep := (p: Poem) => Matches(p, q);
        Seqs.FilterMembers(poemsCache, keep);
        Seqs.FilterSubseq(poemsCache, keep);
        Seqs.Filter(poemsCache, keep)
    }

    /** `getAllTags`: every tag of the cache once, in ascending order. */
    function GetAllTags(): (r: seq<string>)
      reads this
      ensures StrictlySorted(r)
      ensures forall t :: t in r <==> exists k :: 0 <= k < |poemsCache| && t in poemsCache[k].tags
    {
      AllTagsOfMembers(poemsCache);
      SortedDistinctSpec(AllTagsOf(poemsCache));
      SortedDistinct(AllTagsOf(poemsCache))
    }

    /** `getFavoritePoems`: the flagged poems, in cache order. */
    function GetFavoritePoems(): (r: seq<Poem>)
      reads this
      ensures Seqs.Subseq(r, poemsCache)
      ensures forall p :: p in r <==> p in poemsCache && p.isFavorite
    {
      var keep := (p: Poem) => p.isFavorite;
      Seqs.FilterMembers(poemsCache, keep);
      Seqs.FilterSubseq(poemsCache, keep);
      Seqs.Filter(poemsCache, keep)
    }

    /** `isDataLoaded`. */
    function IsDataLoaded(): (r: bool)
      reads this
      ensures r <==> poemsCache != []
    {
      |poemsCache| > 0
    }

    /** `saveFavoriteStatus`: adds the id to the stored set or removes it. */
    method SaveFavoriteStatus(poemId: string, isFavorite: bool)
      modifies this
      ensures favorites == if isFavorite then old(favorites) + {poemId} else old(favorites) - {poemId}
      ensures poemsCache == old(poemsCache)
    {
      var updated := favorites;
      if isFavorite {
        updated := updated + {poemId};
      } else {
        updated := updated - {poemId};
      }
      favorites := updated;
    }

    /** `toggleFavorite`: flips the flag of the first poem with the id and
        records the new flag in the stored set; an unknown id changes nothing. */
    method ToggleFavorite(poemId: int)
      modifies this
      ensures poemsCache == ToggledPoems(old(poemsCache), poemId)
      ensures favorites == ToggledFavorites(old(poemsCache), old(favorites), poemId)
      ensures old(Valid()) ==> Valid()
    {
      ghost var cache0, favorites0 := poemsCache, favorites;
      var index := Seqs.IndexOfFirst(poemsCache, (p: Poem) => p.id == poemId);
      if index != -1 {
        var poem := poemsCache[index];
        var newFavoriteStatus := !poem.isFavorite;
        var updatedPoem := poem.(isFavorite := newFavoriteStatus);
        poemsCache := poemsCache[index := updatedPoem];
        SaveFavoriteStatus(KotlinText.IntToString(poemId), newFavoriteStatus);
      }
      if UniqueIds(cache0) && FavoritesAgree(cache0, favorites0) {
        TogglePreservesAgreement(cache0, favorites0, poemId);
      }
    }
  }
}
