/**
 * The application's route table and the rule that hides the bottom
 * navigation, as data for the router's matcher and dispatcher.
 */
module Routes {
  import opened Wrappers
  import opened Strings
  import opened Router

  /** The page components the route table names. */
  datatype Page = HomePage | SchedulePage | SearchPage | BookmarksPage | DetailPage | WatchPage | ListPage

  /** The `Route` children of the application's `Switch`, in declaration order. */
  const AppRoutes: seq<Route<Page>> := [
    Route(Some(HomePattern), HomePage),
    Route(Some(SchedulePattern), SchedulePage),
    Route(Some(SearchPattern), SearchPage),
    Route(Some(BookmarksPattern), BookmarksPage),
    Route(Some(AnimePattern), DetailPage),
    Route(Some(WatchPattern), WatchPage),
    Route(Some(ListPattern), ListPage)
  ]

  const HomePattern := "/"
  const SchedulePattern := "/schedule"
  const SearchPattern := "/search"
  const BookmarksPattern := "/bookmarks"
  const AnimePattern := "/anime/:slug"
  const WatchPattern := "/watch/:slug"
  const ListPattern := "/list/:type"

  /** The bottom navigation is hidden on paths that start with `/watch/`. */
  predicate HideBottomNav(path: string)
  {
    WatchPrefix <= path
  }

  /**
   * Which page the table chooses, stated on the path's segments alone: the
   * home page for none; one of three pages for the one-segment words
   * `schedule`, `search`, `bookmarks`; a parameterised page for two segments
   * under `anime`, `watch` or `list`; nothing otherwise.
   */
  function Chosen(path: string): Option<Rendered<Page>>
  {
    var s := Segments(path);
    if |s| == 0 then Some(Rendered(HomePage, map[]))
    else if |s| == 1 then
      if s[0] == "schedule" then Some(Rendered(SchedulePage, map[]))
      else if s[0] == "search" then Some(Rendered(SearchPage, map[]))
      else if s[0] == "bookmarks" then Some(Rendered(BookmarksPage, map[]))
      else None
    else if |s| == 2 then
      if s[0] == "anime" then Some(Rendered(DetailPage, map["slug" := s[1]]))
      else if s[0] == "watch" then Some(Rendered(WatchPage, map["slug" := s[1]]))
      else if s[0] == "list" then Some(Rendered(ListPage, map["type" := s[1]]))
      else None
    else None
  }

  /** The pieces of `/word` split at `/`. */
  lemma SplitWordPattern(word: string)
    requires '/' !in word
    ensures Split("/" + word, '/') == ["", word]
  {
    SplitAtFirst("", word, '/');
    assert "" + ['/'] + word == "/" + word;
  }

  /** The pieces of `/word/rest` split at `/`. */
  lemma SplitParamPattern(word: string, rest: string)
    requires '/' !in word && '/' !in rest
    ensures Split("/" + word + "/" + rest, '/') == ["", word, rest]
  {
    var tail := word + "/" + rest;
    RegroupFour("/", word, "/", rest);
    SplitLeadingSlash(tail);
    SplitAtFirst(word, rest, '/');
    assert Split(rest, '/') == [rest];
  }

  /** A leading `/` splits off an empty first piece. */
  lemma SplitLeadingSlash(tail: string)
    ensures Split("/" + tail, '/') == [""] + Split(tail, '/')
  {
    SplitAtFirst("", tail, '/');
    assert "" + ['/'] + tail == "/" + tail;
  }


  /** A one-word pattern `/word` has the single segment `word`. */
  lemma SegmentsOfWordPattern(pattern: string, word: string)
    requires pattern == "/" + word && word != "" && '/' !in word
    ensures Segments(pattern) == [word]
  {
    SplitWordPattern(word);
    assert NonEmpty(["", word]) == [word] by {
      assert ["", word][1..] == [word] && [word][1..] == [];
    }
  }

  /** A pattern `/word/rest` has the segments `word` and `rest`. */
  lemma SegmentsOfParamPattern(pattern: string, word: string, rest: string)
    requires pattern == "/" + word + "/" + rest && word != "" && '/' !in word && rest != "" && '/' !in rest
    ensures Segments(pattern) == [word, rest]
  {
    SplitParamPattern(word, rest);
    assert ["", word, rest][1..] == [word, rest] && [word, rest][1..] == [rest] && [rest][1..] == [];
    assert NonEmpty([rest]) == [rest];
    assert NonEmpty([word, rest]) == [word] + NonEmpty([rest]);
  }

  /** A pattern without segments matches exactly the paths without segments. */
  lemma MatchNoSegments(pattern: string, path: string)
    requires Segments(pattern) == []
    ensures Match(pattern, path) == if Segments(path) == [] then Some(map[]) else None
  {
  }

  /** A pattern whose one segment is a literal matches exactly the paths with that one segment. */
  lemma MatchLiteral(pattern: string, word: string, path: string)
    requires Segments(pattern) == [word] && word != "" && word[0] != ':'
    ensures Match(pattern, path) == if Segments(path) == [word] then Some(map[]) else None
  {
    assert !IsParam(word);
    var q := Segments(path);
    if |q| == 1 {
      assert [word][1..] == [] && q[1..] == [];
      assert MatchFrom([word], q, map[]) == if word == q[0] then MatchFrom([], [], map[]) else None;
      assert q == [q[0]];
    }
  }

  /** A pattern `word/:name` matches the two-segment paths under `word` and captures the second. */
  lemma MatchLiteralParam(pattern: string, word: string, param: string, name: string, path: string)
    requires Segments(pattern) == [word, param] && word != "" && word[0] != ':'
    requires IsParam(param) && ParamName(param) == name
    ensures Match(pattern, path) ==
      var q := Segments(path);
      if |q| == 2 && q[0] == word then Some(map[name := q[1]]) else None
  {
    assert !IsParam(word);
    var pp, q := [word, param], Segments(path);
    if |q| == 2 {
      assert pp[1..] == [param] && q[1..] == [q[1]];
      assert [param][1..] == [] && [q[1]][1..] == [];
      assert MatchFrom([param], [q[1]], map[]) == MatchFrom([], [], map[name := q[1]]);
      assert MatchFrom(pp, q, map[]) == if word == q[0] then MatchFrom([param], [q[1]], map[]) else None;
    }
  }

  lemma HomePatternSegments()
    ensures Segments(HomePattern) == []
  {
    SplitAtFirst("", "", '/');
    assert "" + ['/'] + "" == HomePattern;
    assert NonEmpty(["", ""]) == [];
  }

  lemma SchedulePatternSegments()
    ensures Segments(SchedulePattern) == ["schedule"]
  {
    SegmentsOfWordPattern(SchedulePattern, "schedule");
  }

  lemma SearchPatternSegments()
    ensures Segments(SearchPattern) == ["search"]
  {
    SegmentsOfWordPattern(SearchPattern, "search");
  }

  lemma BookmarksPatternSegments()
    ensures Segments(BookmarksPattern) == ["bookmarks"]
  {
    SegmentsOfWordPattern(BookmarksPattern, "bookmarks");
  }

  lemma AnimePatternSegments()
    ensures Segments(AnimePattern) == ["anime", ":slug"]
  {
    SegmentsOfParamPattern(AnimePattern, "anime", ":slug");
  }

  lemma WatchPatternSegments()
    ensures Segments(WatchPattern) == ["watch", ":slug"]
  {
    SegmentsOfParamPattern(WatchPattern, "watch", ":slug");
  }

  lemma ListPatternSegments()
    ensures Segments(ListPattern) == ["list", ":type"]
  {
    SegmentsOfParamPattern(ListPattern, "list", ":type");
  }

  /** The entries of the table, one by one. */
  lemma AppRoutesEntries()
    ensures |AppRoutes| == 7
    ensures AppRoutes[0] == Route(Some(HomePattern), HomePage)
    ensures AppRoutes[1] == Route(Some(SchedulePattern), SchedulePage)
    ensures AppRoutes[2] == Route(Some(SearchPattern), SearchPage)
    ensures AppRoutes[3] == Route(Some(BookmarksPattern), BookmarksPage)
    ensures AppRoutes[4] == Route(Some(AnimePattern), DetailPage)
    ensures AppRoutes[5] == Route(Some(WatchPattern), WatchPage)
    ensures AppRoutes[6] == Route(Some(ListPattern), ListPage)
  {
  }

  /** No literal segment of the table starts with `:`, and both parameters do. */
  lemma SegmentKinds()
    ensures !IsParam("schedule") && !IsParam("search") && !IsParam("bookmarks")
    ensures !IsParam("anime") && !IsParam("watch") && !IsParam("list")
    ensures IsParam(SlugParam) && ParamName(SlugParam) == "slug"
    ensures IsParam(TypeParam) && ParamName(TypeParam) == "type"
  {
    assert "schedule"[0] == 's' && "search"[0] == 's' && "bookmarks"[0] == 'b';
    assert "anime"[0] == 'a' && "watch"[0] == 'w' && "list"[0] == 'l';
  }

  const SlugParam := ":slug"
  const TypeParam := ":type"

  /** A route whose pattern is one literal segment selects exactly the paths with that one segment. */
  lemma SelectsLiteral(route: Route<Page>, pattern: string, word: string, path: string)
    requires route.path == Some(pattern) && pattern != ""
    requires Segments(pattern) == [word] && word != "" && !IsParam(word)
    ensures Selects(route, path) <==> Segments(path) == [word]
    ensures Selects(route, path) ==> Match(pattern, path) == Some(map[])
  {
    MatchLiteral(pattern, word, path);
  }

  /**
   * A route whose pattern is a literal segment and a parameter selects
   * exactly the two-segment paths under that literal, capturing the second.
   */
  lemma SelectsLiteralParam(route: Route<Page>, pattern: string, word: string, param: string, name: string, path: string)
    requires route.path == Some(pattern) && pattern != ""
    requires Segments(pattern) == [word, param] && word != "" && !IsParam(word)
    requires IsParam(param) && ParamName(param) == name
    ensures var q := Segments(path); Selects(route, path) <==> |q| == 2 && q[0] == word
    ensures var q := Segments(path); Selects(route, path) ==> Match(pattern, path) == Some(map[name := q[1]])
  {
    MatchLiteralParam(pattern, word, param, name, path);
  }

  /** The route `/` selects exactly the paths without segments. */
  lemma SelectsHome(path: string)
    ensures Selects(AppRoutes[0], path) <==> Segments(path) == []
    ensures Selects(AppRoutes[0], path) ==> Match(HomePattern, path) == Some(map[])
  {
    HomePatternSegments();
    MatchNoSegments(HomePattern, path);
    AppRoutesEntries();
  }

  /** The route `/schedule` selects exactly the paths whose only segment is `schedule`. */
  lemma SelectsSchedule(path: string)
    ensures Selects(AppRoutes[1], path) <==> Segments(path) == ["schedule"]
    ensures Selects(AppRoutes[1], path) ==> Match(SchedulePattern, path) == Some(map[])
  {
    SchedulePatternSegments();
    SegmentKinds();
    AppRoutesEntries();
    SelectsLiteral(AppRoutes[1], SchedulePattern, "schedule", path);
  }

  /** The route `/search` selects exactly the paths whose only segment is `search`. */
  lemma SelectsSearch(path: string)
    ensures Selects(AppRoutes[2], path) <==> Segments(path) == ["search"]
    ensures Selects(AppRoutes[2], path) ==> Match(SearchPattern, path) == Some(map[])
  {
    SearchPatternSegments();
    SegmentKinds();
    AppRoutesEntries();
    SelectsLiteral(AppRoutes[2], SearchPattern, "search", path);
  }

  /** The route `/bookmarks` selects exactly the paths whose only segment is `bookmarks`. */
  lemma SelectsBookmarks(path: string)
    ensures Selects(AppRoutes[3], path) <==> Segments(path) == ["bookmarks"]
    ensures Selects(AppRoutes[3], path) ==> Match(BookmarksPattern, path) == Some(map[])
  {
    BookmarksPatternSegments();
    SegmentKinds();
    AppRoutesEntries();
    SelectsLiteral(AppRoutes[3], BookmarksPattern, "bookmarks", path);
  }

  /** The route `/anime/:slug` selects exactly the two-segment paths under `anime`, capturing `slug`. */
  lemma SelectsAnime(path: string)
    ensures var q := Segments(path); Selects(AppRoutes[4], path) <==> |q| == 2 && q[0] == "anime"
    ensures var q := Segments(path); Selects(AppRoutes[4], path) ==> Match(AnimePattern, path) == Some(map["slug" := q[1]])
  {
    AnimePatternSegments();
    SegmentKinds();
    AppRoutesEntries();
    SelectsLiteralParam(AppRoutes[4], AnimePattern, "anime", SlugParam, "slug", path);
  }

  /** The route `/watch/:slug` selects exactly the two-segment paths under `watch`, capturing `slug`. */
  lemma SelectsWatch(path: string)
    ensures var q := Segments(path); Selects(AppRoutes[5], path) <==> |q| == 2 && q[0] == "watch"
    ensures var q := Segments(path); Selects(AppRoutes[5], path) ==> Match(WatchPattern, path) == Some(map["slug" := q[1]])
  {
    WatchPatternSegments();
    SegmentKinds();
    AppRoutesEntries();
    SelectsLiteralParam(AppRoutes[5], WatchPattern, "watch", SlugParam, "slug", path);
  }

  /** The route `/list/:type` selects exactly the two-segment paths under `list`, capturing `type`. */
  lemma SelectsList(path: string)
    ensures var q := Segments(path); Selects(AppRoutes[6], path) <==> |q| == 2 && q[0] == "list"
    ensures var q := Segments(path); Selects(AppRoutes[6], path) ==> Match(ListPattern, path) == Some(map["type" := q[1]])
  {
    ListPatternSegments();
    SegmentKinds();
    AppRoutesEntries();
    SelectsLiteralParam(AppRoutes[6], ListPattern, "list", TypeParam, "type", path);
  }

  /** One step of `Dispatch` from position `k`. */
  lemma DispatchAt<C>(children: seq<Route<C>>, k: nat, path: string)
    requires k < |children|
    ensures Dispatch(children[k..], path) ==
      if Selects(children[k], path) then Some(Rendered(children[k].component, Match(children[k].path.value, path).value))
      else Dispatch(children[k + 1..], path)
  {
    assert children[k..][0] == children[k] && children[k..][1..] == children[k + 1..];
  }

  /** The parameterised routes choose what `Chosen` describes for two segments, and nothing otherwise. */
  lemma RouteTableFrom4(path: string)
    ensures Dispatch(AppRoutes[4..], path) == if |Segments(path)| == 2 then Chosen(path) else None
  {
    var t := AppRoutes;
    SelectsAnime(path);
    SelectsWatch(path);
    SelectsList(path);
    DispatchAt(t, 4, path);
    DispatchAt(t, 5, path);
    DispatchAt(t, 6, path);
    assert t[7..] == [];
  }

  lemma RouteTableFrom3(path: string)
    ensures Dispatch(AppRoutes[3..], path) ==
      if Segments(path) == ["bookmarks"] || |Segments(path)| == 2 then Chosen(path) else None
  {
    SelectsBookmarks(path);
    DispatchAt(AppRoutes, 3, path);
    RouteTableFrom4(path);
  }

  lemma RouteTableFrom2(path: string)
    ensures Dispatch(AppRoutes[2..], path) ==
      if Segments(path) in {["search"], ["bookmarks"]} || |Segments(path)| == 2 then Chosen(path) else None
  {
    SelectsSearch(path);
    DistinctWords();
    DispatchAt(AppRoutes, 2, path);
    RouteTableFrom3(path);
  }

  /** The routes after `/` choose what `Chosen` describes for paths with segments. */
  lemma RouteTableFrom1(path: string)
    ensures Dispatch(AppRoutes[1..], path) == if Segments(path) == [] then None else Chosen(path)
  {
    var s := Segments(path);
    SelectsSchedule(path);
    DistinctWords();
    DispatchAt(AppRoutes, 1, path);
    if s == ["schedule"] {
      assert Chosen(path) == Some(Rendered(SchedulePage, map[]));
    } else {
      RouteTableFrom2(path);
      if |s| == 1 {
        assert s == [s[0]] && s[0] != "schedule";
      }
    }
  }

  /** The table chooses exactly what `Chosen` describes. */
  lemma RouteTable(path: string)
    ensures Dispatch(AppRoutes, path) == Chosen(path)
  {
    SelectsHome(path);
    DispatchAt(AppRoutes, 0, path);
    assert AppRoutes[0..] == AppRoutes;
    RouteTableFrom1(path);
  }

  /** The literal segments of the table differ pairwise. */
  lemma DistinctWords()
    ensures "schedule" != "search" && "schedule" != "bookmarks" && "search" != "bookmarks"
    ensures "anime" != "watch" && "anime" != "list" && "watch" != "list"
  {
    assert "schedule"[1] == 'c' && "search"[1] == 'e' && "bookmarks"[0] == 'b';
    assert "anime"[0] == 'a' && "watch"[0] == 'w' && "list"[0] == 'l';
  }

  /** How many segments the `k`-th route's pattern has. */
  function RouteArity(k: nat): nat
  {
    if k == 0 then 0 else if k <= 3 then 1 else 2
  }

  /** The literal first segment of the `k`-th route's pattern (none for `/`). */
  function RouteWord(k: nat): string
  {
    if k == 1 then "schedule" else if k == 2 then "search" else if k == 3 then "bookmarks"
    else if k == 4 then "anime" else if k == 5 then "watch" else if k == 6 then "list" else ""
  }

  /** A path the `k`-th route selects has that route's number of segments and first word. */
  lemma SelectsShape(k: nat, path: string)
    requires k < |AppRoutes|
    ensures Selects(AppRoutes[k], path) ==>
      |Segments(path)| == RouteArity(k) && (k > 0 ==> Segments(path)[0] == RouteWord(k))
  {
    if k == 0 { SelectsHome(path); }
    else if k == 1 { SelectsSchedule(path); }
    else if k == 2 { SelectsSearch(path); }
    else if k == 3 { SelectsBookmarks(path); }
    else if k == 4 { SelectsAnime(path); }
    else if k == 5 { SelectsWatch(path); }
    else { SelectsList(path); }
  }

  /** No path is matched by two entries of the table. */
  lemma RoutesDisjoint(path: string)
    ensures forall i, j :: 0 <= i < j < |AppRoutes| ==> !(Selects(AppRoutes[i], path) && Selects(AppRoutes[j], path))
  {
    forall i, j | 0 <= i < j < |AppRoutes|
      ensures !(Selects(AppRoutes[i], path) && Selects(AppRoutes[j], path))
    {
      PairDisjoint(i, j, path);
    }
  }

  /** Two different entries of the table never both select a path. */
  lemma PairDisjoint(i: nat, j: nat, path: string)
    requires i < j < |AppRoutes|
    ensures !(Selects(AppRoutes[i], path) && Selects(AppRoutes[j], path))
  {
    SelectsShape(i, path);
    SelectsShape(j, path);
    if i > 0 && RouteArity(i) == RouteArity(j) {
      ShapesDistinct(i, j);
    }
  }

  /** Two routes with the same number of segments differ in their first word. */
  lemma ShapesDistinct(i: nat, j: nat)
    requires 0 < i < j < 7 && RouteArity(i) == RouteArity(j)
    ensures RouteWord(i) != RouteWord(j)
  {
    DistinctWords();
  }

  /** When at most one child selects the path, the order of the children does not change what is rendered. */
  lemma DisjointOrderFree<C>(table: seq<Route<C>>, reordered: seq<Route<C>>, path: string)
    requires multiset(reordered) == multiset(table)
    requires forall i, j :: 0 <= i < j < |table| ==> !(Selects(table[i], path) && Selects(table[j], path))
    ensures Dispatch(reordered, path) == Dispatch(table, path)
  {
    DispatchFirstMatch(table, path);
    DispatchFirstMatch(reordered, path);
    if Dispatch(table, path).Some? {
      var i :| 0 <= i < |table| && Selects(table[i], path) &&
        Dispatch(table, path).value == Rendered(table[i].component, Match(table[i].path.value, path).value);
      assert table[i] in multiset(reordered);
      var j0 :| 0 <= j0 < |reordered| && reordered[j0] == table[i];
      assert Selects(reordered[j0], path);
      var j :| 0 <= j < |reordered| && Selects(reordered[j], path) &&
        Dispatch(reordered, path).value == Rendered(reordered[j].component, Match(reordered[j].path.value, path).value);
      assert reordered[j] in multiset(table);
      var k :| 0 <= k < |table| && table[k] == reordered[j];
      assert k == i;
    } else {
      forall j | 0 <= j < |reordered|
        ensures !Selects(reordered[j], path)
      {
        assert reordered[j] in multiset(table);
        var k :| 0 <= k < |table| && table[k] == reordered[j];
      }
    }
  }

  /** Declaring the application's routes in any other order chooses the same page. */
  lemma AppRoutesOrderFree(reordered: seq<Route<Page>>, path: string)
    requires multiset(reordered) == multiset(AppRoutes)
    ensures Dispatch(reordered, path) == Dispatch(AppRoutes, path)
  {
    RoutesDisjoint(path);
    DisjointOrderFree(AppRoutes, reordered, path);
  }

  /** The home page is chosen exactly for paths without a non-empty segment. */
  lemma HomeOnlyAtRoot(path: string)
    ensures (Dispatch(AppRoutes, path).Some? && Dispatch(AppRoutes, path).value.component == HomePage)
      <==> Segments(path) == []
  {
    RouteTable(path);
    ChosenHomeIff(path);
  }

  /** `Chosen` names the home page for no segment and never otherwise. */
  lemma ChosenHomeIff(path: string)
    ensures (Chosen(path).Some? && Chosen(path).value.component == HomePage) <==> Segments(path) == []
  {
    var s := Segments(path);
    if |s| == 1 {
      assert Chosen(path).None? || Chosen(path).value.component in {SchedulePage, SearchPage, BookmarksPage};
    } else if |s| == 2 {
      assert Chosen(path).None? || Chosen(path).value.component in {DetailPage, WatchPage, ListPage};
    }
  }

  /** A link `/prefix/x` for a segment `x` has the segments `prefix` and `x`. */
  lemma SegmentsOfLink(prefix: string, x: string)
    requires prefix != "" && '/' !in prefix && x != "" && '/' !in x
    ensures Segments("/" + prefix + "/" + x) == [prefix, x]
  {
    SegmentsConcat("/" + prefix, x);
    SegmentsIgnoreOuterSlashes(prefix);
    SegmentsOfWord(prefix);
    SegmentsOfWord(x);
    assert [prefix] + [x] == [prefix, x];
  }

  /** A link `/prefix/x` without `?` is all path, and has the segments `prefix` and `x`. */
  lemma LinkLocation(prefix: string, x: string)
    requires prefix != "" && '/' !in prefix && '?' !in prefix
    requires x != "" && '/' !in x && '?' !in x
    ensures SplitLocation("/" + prefix + "/" + x) == ("/" + prefix + "/" + x, "")
    ensures Segments("/" + prefix + "/" + x) == [prefix, x]
  {
    var loc := "/" + prefix + "/" + x;
    forall i | 0 <= i < |loc|
      ensures loc[i] != '?'
    {
      if 1 <= i < 1 + |prefix| {
        assert loc[i] == prefix[i - 1];
      } else if i > 1 + |prefix| {
        assert loc[i] == x[i - 2 - |prefix|];
      }
    }
    SplitLocationNoQuery(loc);
    SegmentsOfLink(prefix, x);
  }

  /**
   * A one-word path other than the three page words, and a two-word path
   * under any other first word, reach no page: the `Switch` renders nothing.
   */
  lemma UnroutedLinks(word: string, x: string)
    requires word != "" && '/' !in word && x != "" && '/' !in x
    ensures word != "schedule" && word != "search" && word != "bookmarks" ==>
      Dispatch(AppRoutes, "/" + word) == None
    ensures word != "anime" && word != "watch" && word != "list" ==>
      Dispatch(AppRoutes, "/" + word + "/" + x) == None
  {
    SegmentsOfWordPattern("/" + word, word);
    SegmentsOfLink(word, x);
    RouteTable("/" + word);
    RouteTable("/" + word + "/" + x);
  }

  /** `/my-list` is not in the table. */
  lemma MyListUnrouted()
    ensures Dispatch(AppRoutes, "/" + "my-list") == None
  {
    assert "my-list"[0] == 'm' && '/' !in "my-list";
    UnroutedLinks("my-list", "my-list");
  }

  /** `/genre/<slug>` is not in the table. */
  lemma GenreUnrouted(x: string)
    requires x != "" && '/' !in x
    ensures Dispatch(AppRoutes, "/" + "genre" + "/" + x) == None
  {
    assert "genre"[0] == 'g' && '/' !in "genre";
    UnroutedLinks("genre", x);
  }

  /** `/batch/<slug>` is not in the table. */
  lemma BatchUnrouted(x: string)
    requires x != "" && '/' !in x
    ensures Dispatch(AppRoutes, "/" + "batch" + "/" + x) == None
  {
    assert "batch"[0] == 'b' && "batch"[1] == 'a' && '/' !in "batch";
    UnroutedLinks("batch", x);
  }

  /** `/my-list`, `/genre/<slug>` and `/batch/<slug>` are not in the table. */
  lemma UnroutedPaths(x: string)
    requires x != "" && '/' !in x
    ensures Dispatch(AppRoutes, "/" + "my-list") == None
    ensures Dispatch(AppRoutes, "/" + "genre" + "/" + x) == None
    ensures Dispatch(AppRoutes, "/" + "batch" + "/" + x) == None
  {
    MyListUnrouted();
    GenreUnrouted(x);
    BatchUnrouted(x);
  }

  /** A link written as a prefix `/word/` followed by a segment is all path, under `word` and that segment. */
  lemma PrefixedLink(prefix: string, word: string, x: string)
    requires prefix == "/" + word + "/" && word != "" && '/' !in word && '?' !in word
    requires x != "" && '/' !in x && '?' !in x
    ensures SplitLocation(prefix + x).0 == prefix + x
    ensures Segments(prefix + x) == [word, x]
  {
    LinkLocation(word, x);
  }

  const WatchPrefix := "/watch/"
  const WatchWord := "watch"

  /** `/watch/` is `/`, `watch`, `/`. */
  lemma WatchPrefixParts()
    ensures WatchPrefix == "/" + WatchWord + "/"
    ensures WatchWord != "" && '/' !in WatchWord && '?' !in WatchWord
  {
  }

  /** A `/watch/<slug>` location is all path, under the segments `watch` and the slug. */
  lemma WatchLinkLocation(slug: string)
    requires slug != "" && '/' !in slug && '?' !in slug
    ensures SplitLocation(WatchPrefix + slug).0 == WatchPrefix + slug
    ensures Segments(WatchPrefix + slug) == [WatchWord, slug]
  {
    WatchPrefixParts();
    PrefixedLink(WatchPrefix, WatchWord, slug);
  }

  /** A path with the segments `watch` and a slug shows the watch page for that slug. */
  lemma WatchSegmentsDispatch(path: string, slug: string)
    requires Segments(path) == [WatchWord, slug]
    ensures Dispatch(AppRoutes, path) == Some(Rendered(WatchPage, map["slug" := slug]))
  {
    RouteTable(path);
    DistinctWords();
  }

  /** Every location that starts with `/watch/` hides the bottom navigation. */
  lemma WatchPrefixHides(slug: string)
    ensures HideBottomNav(WatchPrefix + slug)
  {
    assert (WatchPrefix + slug)[..|WatchPrefix|] == WatchPrefix;
  }

  /** A `/watch/<slug>` location hides the bottom navigation and shows the watch page for that slug. */
  lemma WatchLinksHideNav(slug: string)
    requires slug != "" && '/' !in slug && '?' !in slug
    ensures SplitLocation(WatchPrefix + slug).0 == WatchPrefix + slug
    ensures HideBottomNav(WatchPrefix + slug)
    ensures Dispatch(AppRoutes, WatchPrefix + slug) == Some(Rendered(WatchPage, map["slug" := slug]))
  {
    WatchLinkLocation(slug);
    WatchSegmentsDispatch(WatchPrefix + slug, slug);
    WatchPrefixHides(slug);
  }

  const AnimePrefix := "/anime/"
  const AnimeWord := "anime"

  /** `/anime/` is `/`, `anime`, `/`. */
  lemma AnimePrefixParts()
    ensures AnimePrefix == "/" + AnimeWord + "/"
    ensures AnimeWord != "" && '/' !in AnimeWord && '?' !in AnimeWord
  {
  }

  /** A path with the segments `anime` and a slug shows the detail page for that slug. */
  lemma AnimeSegmentsDispatch(path: string, slug: string)
    requires Segments(path) == [AnimeWord, slug]
    ensures Dispatch(AppRoutes, path) == Some(Rendered(DetailPage, map["slug" := slug]))
  {
    RouteTable(path);
  }

  /** A location that starts with `/anime/` keeps the bottom navigation. */
  lemma AnimePrefixKeepsNav(slug: string)
    ensures !HideBottomNav(AnimePrefix + slug)
  {
    assert (AnimePrefix + slug)[1] == 'a' && WatchPrefix[1] == 'w';
  }

  const ListPrefix := "/list/"
  const ListWord := "list"

  /** `/list/` is `/`, `list`, `/`. */
  lemma ListPrefixParts()
    ensures ListPrefix == "/" + ListWord + "/"
    ensures ListWord != "" && '/' !in ListWord && '?' !in ListWord
  {
  }

  /** A path with the segments `list` and a type shows the listing page for that type. */
  lemma ListSegmentsDispatch(path: string, listType: string)
    requires Segments(path) == [ListWord, listType]
    ensures Dispatch(AppRoutes, path) == Some(Rendered(ListPage, map["type" := listType]))
  {
    RouteTable(path);
    DistinctWords();
  }
}
