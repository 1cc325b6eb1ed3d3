/**
 * The genre listing: the title made from the genre's slug, and the state
 * of its infinitely scrolling list of titles.
 */
module GenrePage {
  import opened Wrappers
  import opened Strings
  import opened Types
  import opened Paging

  /** `word.charAt(0).toUpperCase() + word.slice(1)`. */
  function Capitalize(word: string): (r: string)
    ensures |r| == |word|
  {
    if word == "" then "" else [UpperChar(word[0])] + word[1..]
  }

  function CapitalizeAll(words: seq<string>): (r: seq<string>)
    ensures |r| == |words| && forall k :: 0 <= k < |r| ==> r[k] == Capitalize(words[k])
  {
    if words == [] then [] else [Capitalize(words[0])] + CapitalizeAll(words[1..])
  }

  /** `formatSlugToTitle`: split at `-`, capitalise each piece, join with a space. */
  function FormatSlugToTitle(slug: string): string
  {
    Join(CapitalizeAll(Split(slug, '-')), ' ')
  }

  /** The title's character at `i`, read off the slug alone. */
  function TitleChar(slug: string, i: nat): char
    requires i < |slug|
  {
    if slug[i] == '-' then ' '
    else if i == 0 || slug[i - 1] == '-' then UpperChar(slug[i])
    else slug[i]
  }

  /** The title as a character-by-character rewrite of the slug. */
  function TitleChars(slug: string): (r: string)
    ensures |r| == |slug| && forall i :: 0 <= i < |slug| ==> r[i] == TitleChar(slug, i)
  {
    seq(|slug|, i requires 0 <= i < |slug| => TitleChar(slug, i))
  }

  /** A slug without `-` is a single piece: only its first character changes. */
  lemma TitleCharsOfWord(w: string)
    requires '-' !in w
    ensures TitleChars(w) == Capitalize(w)
  {
    if w != "" {
      forall i | 0 <= i < |w|
        ensures TitleChars(w)[i] == Capitalize(w)[i]
      {
        if i > 0 {
          assert w[i - 1] in w;
        }
      }
    }
  }

  /** Rewriting distributes over the first `-`. */
  lemma TitleCharsAtDash(w: string, rest: string)
    requires '-' !in w
    ensures TitleChars(w + "-" + rest) == TitleChars(w) + " " + TitleChars(rest)
  {
    var s := w + "-" + rest;
    var lhs, rhs := TitleChars(s), TitleChars(w) + " " + TitleChars(rest);
    forall i | 0 <= i < |s|
      ensures lhs[i] == rhs[i]
    {
      if i < |w| {
        assert s[i] == w[i];
        if i > 0 {
          assert s[i - 1] == w[i - 1];
        }
      } else if i > |w| {
        assert s[i] == rest[i - |w| - 1];
        if i - |w| - 1 > 0 {
          assert s[i - 1] == rest[i - |w| - 2];
        }
      }
    }
  }

  /** `formatSlugToTitle` agrees with the character-by-character rewrite. */
  lemma {:induction false} FormatSlugToTitleChars(slug: string)
    ensures FormatSlugToTitle(slug) == TitleChars(slug)
    decreases |slug|
  {
    if '-' in slug {
      var i := IndexOf(slug, '-');
      var w, rest := slug[..i], slug[i + 1..];
      assert slug == w + "-" + rest;
      SplitAtFirst(w, rest, '-');
      FormatSlugToTitleChars(rest);
      var parts := Split(rest, '-');
      assert CapitalizeAll([w] + parts) == [Capitalize(w)] + CapitalizeAll(parts);
      TitleCharsOfWord(w);
      TitleCharsAtDash(w, rest);
    } else {
      TitleCharsOfWord(slug);
    }
  }

  /** The title has the slug's length, no `-`, and a space exactly where the slug has a `-`. */
  lemma FormatSlugToTitleShape(slug: string)
    ensures |FormatSlugToTitle(slug)| == |slug|
    ensures '-' !in FormatSlugToTitle(slug)
    ensures forall i :: 0 <= i < |slug| ==> (FormatSlugToTitle(slug)[i] == ' ' <==> slug[i] == '-' || slug[i] == ' ')
  {
    FormatSlugToTitleChars(slug);
  }

  /** The page title: the formatted slug, or `Genre` without one. */
  function Title(genreSlug: Option<string>): string
  {
    if genreSlug.Some? && genreSlug.value != "" then FormatSlugToTitle(genreSlug.value) else "Genre"
  }

  /** One response of the genre listing: `data` may not be an array, `pagination` may be missing or `false`. */
  datatype GenreResponse = GenreResponse(data: Option<seq<Anime>>, pagination: PaginationField)

  /** The state cells and the page counter of the genre listing. */
  class GenreFeed {
    var genreSlug: Option<string>
    var animes: seq<Anime>
    var status: LoadStatus
    var hasNextPage: bool
    var error: Option<string>
    var pageToFetch: int

    constructor (genreSlug: Option<string>)
      ensures this.genreSlug == genreSlug && animes == [] && status == Loading && hasNextPage
      ensures error == None && pageToFetch == 1
    {
      this.genreSlug := genreSlug;
      animes := [];
      status := Loading;
      hasNextPage := true;
      error := None;
      pageToFetch := 1;
    }

    predicate HasSlug()
      reads this
    {
      genreSlug.Some? && genreSlug.value != ""
    }

    /** The synchronous start of `fetchAnimes(page)`: nothing without a slug, otherwise the start status and no error. */
    method BeginFetch(page: int)
      modifies this
      ensures !old(HasSlug()) ==> unchanged(this)
      ensures old(HasSlug()) ==> status == StartStatus(page) && error == None
      ensures genreSlug == old(genreSlug) && animes == old(animes) && hasNextPage == old(hasNextPage)
      ensures pageToFetch == old(pageToFetch)
    {
      if !HasSlug() {
        return;
      }
      status := if page == 1 then Loading else LoadingMore;
      error := None;
    }

    /** The rest of `fetchAnimes(page)` once the request settles. */
    method Settle(page: int, response: Fetched<GenreResponse>)
      requires HasSlug()
      modifies this
      ensures genreSlug == old(genreSlug)
      ensures response.Failed? ==>
        status == Error && error == Some(response.message) && animes == old(animes)
        && hasNextPage == old(hasNextPage) && pageToFetch == old(pageToFetch)
      ensures response.Loaded? ==> status == Success && error == old(error)
      ensures response.Loaded? ==>
        var r := response.value;
        animes == Merged(old(animes), page, if r.data.Some? then r.data.value else [])
        && hasNextPage == (r.pagination.WithPagination? && r.pagination.pagination.has_next_page)
        && pageToFetch == (if r.pagination.WithPagination? then NextCounter(old(pageToFetch), r.pagination.pagination) else old(pageToFetch))
    {
      if response.Failed? {
        error := Some(response.message);
        status := Error;
        return;
      }
      var r := response.value;
      var newData := if r.data.Some? then r.data.value else [];
      animes := Merged(animes, page, newData);
      if r.pagination.WithPagination? {
        var p := r.pagination.pagination;
        hasNextPage := p.has_next_page;
        if p.next_page.Some? && p.next_page.value != 0 {
          pageToFetch := p.next_page.value;
        }
      } else {
        hasNextPage := false;
      }
      status := Success;
    }

    /** The effect on a new genre: nothing without a slug; otherwise counter 1, empty list, fetch page 1. */
    method ChangeGenre(slug: Option<string>)
      modifies this
      ensures genreSlug == slug
      ensures !(slug.Some? && slug.value != "") ==>
        animes == old(animes) && status == old(status) && hasNextPage == old(hasNextPage)
        && error == old(error) && pageToFetch == old(pageToFetch)
      ensures slug.Some? && slug.value != "" ==>
        pageToFetch == 1 && animes == [] && status == Loading && error == None && hasNextPage == old(hasNextPage)
    {
      genreSlug := slug;
      if !HasSlug() {
        return;
      }
      pageToFetch := 1;
      animes := [];
      BeginFetch(1);
    }

    /** The observer's callback: start loading `pageToFetch` only when the guard holds. */
    method OnIntersect(intersecting: bool) returns (started: bool)
      modifies this
      ensures started <==> CanLoadMore(intersecting, old(hasNextPage), old(status)) && old(HasSlug())
      ensures !started ==> unchanged(this)
      ensures started ==> status == StartStatus(old(pageToFetch)) && error == None
      ensures genreSlug == old(genreSlug) && hasNextPage == old(hasNextPage)
      ensures animes == old(animes) && pageToFetch == old(pageToFetch)
    {
      started := false;
      if intersecting && hasNextPage && status != Loading && status != LoadingMore {
        started := HasSlug();
        BeginFetch(pageToFetch);
      }
    }
  }
}
