/**
 * The home page: the icon of each genre chip, the search box's submit
 * handler, and which fetch error the page shows.
 */
module HomePage {
  import opened Wrappers
  import opened Strings
  import opened Router
  import opened Routes
  import Listing = ListPage

  /** The genre names the icon switch knows, lower-cased, with their icons, in the switch's order. */
  const GenreIcons: seq<(string, string)> := [
    ("action", "swords"),
    ("adventure", "explore"),
    ("comedy", "sentiment_very_satisfied"),
    ("drama", "theater_comedy"),
    ("fantasy", "auto_awesome"),
    ("magic", "magic_button"),
    ("romance", "favorite"),
    ("sci-fi", "rocket_launch"),
    ("slice of life", "bakery_dining"),
    ("sports", "sports_soccer"),
    ("supernatural", "flare"),
    ("mystery", "search"),
    ("horror", "skull"),
    ("psychological", "psychology"),
    ("thriller", "local_fire_department"),
    ("seinen", "man"),
    ("shounen", "boy"),
    ("shoujo", "girl"),
    ("isekai", "public"),
    ("school", "school"),
    ("super power", "bolt"),
    ("military", "military_tech"),
    ("harem", "groups"),
    ("music", "music_note")
  ]

  const DefaultGenreIcon := "movie_filter"

  /** A `switch` over `table`'s names: the first case equal to `key`, or the default. */
  function LookupIcon(key: string, table: seq<(string, string)>): (r: string)
    ensures r == DefaultGenreIcon || exists i :: 0 <= i < |table| && r == table[i].1
  {
    if table == [] then DefaultGenreIcon
    else if table[0].0 == key then table[0].1
    else
      var rest := LookupIcon(key, table[1..]);
      assert rest != DefaultGenreIcon ==> exists i :: 0 <= i < |table| && rest == table[i].1 by {
        if rest != DefaultGenreIcon {
          var i :| 0 <= i < |table[1..]| && rest == table[1..][i].1;
          assert rest == table[i + 1].1;
        }
      }
      rest
  }

  /** `getGenreIcon`: the switch on the lower-cased name. */
  function GetGenreIcon(genreName: string): (r: string)
    ensures r == DefaultGenreIcon || exists i :: 0 <= i < |GenreIcons| && r == GenreIcons[i].1
  {
    LookupIcon(Lower(genreName), GenreIcons)
  }

  /** The case the switch takes is the first one whose name equals the key. */
  lemma {:induction false} LookupFound(key: string, table: seq<(string, string)>, i: nat)
    requires i < |table| && table[i].0 == key
    requires forall j :: 0 <= j < i ==> table[j].0 != key
    ensures LookupIcon(key, table) == table[i].1
  {
    if i > 0 {
      LookupFound(key, table[1..], i - 1);
    }
  }

  /** A key no case names takes the default. */
  lemma {:induction false} LookupMissing(key: string, table: seq<(string, string)>)
    requires forall j :: 0 <= j < |table| ==> table[j].0 != key
    ensures LookupIcon(key, table) == DefaultGenreIcon
  {
    if table != [] {
      LookupMissing(key, table[1..]);
    }
  }

  lemma LowerIdempotent(s: string)
    ensures Lower(Lower(s)) == Lower(s)
  {
    forall i | 0 <= i < |s|
      ensures Lower(Lower(s))[i] == Lower(s)[i]
    {
    }
  }

  /** The icon depends only on the lower-cased name: any spelling of a name gets the same icon. */
  lemma GenreIconCaseInsensitive(a: string, b: string)
    requires Lower(a) == Lower(b)
    ensures GetGenreIcon(a) == GetGenreIcon(b) && GetGenreIcon(a) == GetGenreIcon(Lower(a))
  {
    LowerIdempotent(a);
  }

  /** A name the switch does not list gets `movie_filter`; a listed name gets its own icon. */
  lemma GenreIconSpec(genreName: string)
    ensures (forall j :: 0 <= j < |GenreIcons| ==> GenreIcons[j].0 != Lower(genreName)) ==>
      GetGenreIcon(genreName) == DefaultGenreIcon
    ensures forall i ::
      (0 <= i < |GenreIcons| && GenreIcons[i].0 == Lower(genreName)
       && forall j :: 0 <= j < i ==> GenreIcons[j].0 != Lower(genreName))
      ==> GetGenreIcon(genreName) == GenreIcons[i].1
  {
    if forall j :: 0 <= j < |GenreIcons| ==> GenreIcons[j].0 != Lower(genreName) {
      LookupMissing(Lower(genreName), GenreIcons);
    }
    forall i | 0 <= i < |GenreIcons| && GenreIcons[i].0 == Lower(genreName)
      && (forall j :: 0 <= j < i ==> GenreIcons[j].0 != Lower(genreName))
      ensures GetGenreIcon(genreName) == GenreIcons[i].1
    {
      LookupFound(Lower(genreName), GenreIcons, i);
    }
  }

  /** `Action` in any spelling gets the first case's icon. */
  lemma ActionIcon()
    ensures GetGenreIcon("Action") == "swords"
  {
    assert Lower("Action") == "action";
    LookupFound("action", GenreIcons, 0);
  }

  /** `Sci-Fi` keeps its hyphen when lower-cased and gets `rocket_launch`. */
  lemma SciFiIcon()
    ensures GetGenreIcon("Sci-Fi") == "rocket_launch"
  {
    assert Lower("Sci-Fi") == "sci-fi";
    LookupFound("sci-fi", GenreIcons, 7);
  }

  /** A name with spaces matches its case as a whole. */
  lemma SliceOfLifeIcon()
    ensures GetGenreIcon("Slice of Life") == "bakery_dining"
  {
    assert Lower("Slice of Life") == "slice of life";
    LookupFound("slice of life", GenreIcons, 8);
  }

  /** The error view's message: the home feed's error in preference to the genre list's. */
  function PageError(homeError: Option<string>, genresError: Option<string>): (r: Option<string>)
    ensures r.Some? <==> homeError.Some? || genresError.Some?
    ensures homeError.Some? ==> r == homeError
  {
    if homeError.Some? then homeError else genresError
  }

  /** The search target for an encoded query: the search page with `q`. */
  function SearchTarget(encoded: string): string
  {
    SearchPattern + "?" + ("q=" + encoded)
  }

  /** The home page's `query` state cell. */
  class HomeView {
    var query: string

    constructor ()
      ensures query == ""
    {
      query := "";
    }

    method SetQuery(q: string)
      modifies this
      ensures query == q
    {
      query := q;
    }

    /**
     * `handleSearchSubmit`: navigates to the search page with the encoded,
     * untrimmed query, and only when the trimmed query is not empty.
     * `encode` stands for `encodeURIComponent`.
     */
    method HandleSearchSubmit(router: MemoryRouter, encode: string -> string)
      requires router.Valid()
      modifies router
      ensures router.Valid()
      ensures Trim(query) != "" ==> router.history == Push(old(router.history), SearchTarget(encode(query)))
      ensures Trim(query) == "" ==> router.history == old(router.history)
    {
      if Trim(query) != "" {
        router.Navigate(SearchTarget(encode(query)));
      }
    }
  }

  /** A submit navigates exactly when the query has a character other than white space. */
  lemma SubmitNavigatesIff(query: string)
    ensures Trim(query) != "" <==> exists i :: 0 <= i < |query| && !IsSpace(query[i])
  {
    TrimEmptyIff(query);
  }

  /** The search target opens the search page and carries the encoded query as its search string. */
  lemma SearchTargetOpensSearch(encoded: string)
    requires '?' !in encoded
    ensures SplitLocation(SearchTarget(encoded)) == (SearchPattern, "?" + ("q=" + encoded))
    ensures Dispatch(AppRoutes, SplitLocation(SearchTarget(encoded)).0) == Some(Rendered(SearchPage, map[]))
  {
    forall i | 0 <= i < |SearchPattern|
      ensures SearchPattern[i] != '?'
    {
    }
    var q := "q=" + encoded;
    forall i | 0 <= i < |q|
      ensures q[i] != '?'
    {
      if i >= 2 {
        assert q[i] == encoded[i - 2];
      }
    }
    SplitLocationWithQuery(SearchPattern, q, "");
    SearchPatternSegments();
    RouteTable(SearchPattern);
  }

  /** A `View all` link: the listing route with the given type segment. */
  function ViewAllLink(listType: string): string
  {
    ListPrefix + listType
  }

  /**
   * Each carousel's `View all` link opens the listing page with its type,
   * and that type selects the endpoint of the carousel's own titles.
   */
  lemma ViewAllLinksOpenListing()
    ensures Dispatch(AppRoutes, ViewAllLink(Listing.OngoingType)) == Some(Rendered(ListPage, map["type" := Listing.OngoingType]))
    ensures Dispatch(AppRoutes, ViewAllLink(Listing.CompleteType)) == Some(Rendered(ListPage, map["type" := Listing.CompleteType]))
    ensures Listing.ListSource(Some(Listing.OngoingType)) == Some(Listing.Ongoing)
    ensures Listing.ListSource(Some(Listing.CompleteType)) == Some(Listing.Complete)
  {
    ViewAllTypesAreSegments();
    ViewAllOpensListing(Listing.OngoingType);
    ViewAllOpensListing(Listing.CompleteType);
    ViewAllTypesSelectEndpoints();
  }

  /** Both carousel types are single path segments without a query. */
  lemma ViewAllTypesAreSegments()
    ensures Listing.OngoingType != "" && '/' !in Listing.OngoingType && '?' !in Listing.OngoingType
    ensures Listing.CompleteType != "" && '/' !in Listing.CompleteType && '?' !in Listing.CompleteType
  {
  }

  /** The two carousel types select the airing and the finished endpoint. */
  lemma ViewAllTypesSelectEndpoints()
    ensures Listing.ListSource(Some(Listing.OngoingType)) == Some(Listing.Ongoing)
    ensures Listing.ListSource(Some(Listing.CompleteType)) == Some(Listing.Complete)
  {
    assert Listing.OngoingType[0] == 'o' && Listing.CompleteType[0] == 'c';
  }

  /** A `View all` link for a type without `/` or `?` opens the listing page with that type. */
  lemma ViewAllOpensListing(listType: string)
    requires listType != "" && '/' !in listType && '?' !in listType
    ensures Dispatch(AppRoutes, ViewAllLink(listType)) == Some(Rendered(ListPage, map["type" := listType]))
  {
    ListPrefixParts();
    PrefixedLink(ListPrefix, ListWord, listType);
    ListSegmentsDispatch(ViewAllLink(listType), listType);
  }
}
