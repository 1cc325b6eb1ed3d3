# Otokonime front end, modelled in Dafny

This project models the logic core of the Otokonime anime-browsing web
application (a React single-page client of a catalogue API). Each Dafny module
follows one core source file.

- **`Router`** (`lib/memory-router.tsx`): the in-memory router.
  - The history is a class field, updated by `Navigate`, `GoBack` and link clicks.
  - `matchPath` is a loop method proved against a recursive specification.
  - A location splits into path and search.
  - `Switch` dispatches to the first route that matches.
- **`Routes`** (`App.tsx`): the application's route table.
  - The page each path reaches.
  - The routes never overlap, so their order does not matter.
  - Paths that reach no page.
  - Where the bottom navigation is hidden.
- **`Types`** (`types.ts`):
  - the records the pages exchange;
  - the list categories with their keys;
  - the paginated response, whose `pagination` may be present, `false` or absent;
  - `AnyAnime`, the title-shaped records that are told apart by which properties they have.
- **`Db`** (`services/db.ts`): the personal-list store.
  - The open outcome is cached, a failed open included.
  - The record `addToList` derives and then cleans of `undefined` properties.
  - The slug check happens before the database is touched.
  - `put`, `delete`, `get` and `getAll` over a map keyed by slug.
- **`Bookmarks`** (`contexts/BookmarksContext.tsx`):
  - the initial list from saved state;
  - add without duplicates;
  - remove by slug;
  - the membership test.
- **`Paging`**: the infinite-scroll bookkeeping that the genre and listing pages share:
  - the start status;
  - page-1 replace or append;
  - the next-page counter;
  - the observer guard.
- **`GenrePage`**, **`ListPage`** (`pages/GenrePage.tsx`, `pages/ListPage.tsx`): the feed state of each page as a class:
  - the fetch start;
  - the settle of a response or error;
  - the reset on a new route parameter;
  - the observer callback.
  - The slug-to-title formatting.
  - The endpoint choice for a list type.
- **`DetailPage`** (`pages/DetailPage.tsx`):
  - the category label;
  - the episode label extractor (a hand-written version of its regular expression);
  - the filtered and sorted episode list;
  - the slug-missing rejection;
  - the slug fallback;
  - the toast texts and their `/my-list?status=` action;
  - the tab and toast state.
- **`AnimeCard`** (`components/AnimeCard.tsx`):
  - the episode badge, including what it shows for records read back from the personal list;
  - the rating chip;
  - the detail link and the page it opens.
- **`HomePage`** (`pages/HomePage.tsx`):
  - the genre icon switch;
  - the search submit, which navigates only for a query that is not blank;
  - the error shown;
  - the "view all" links.
- **`AddToListSheet`** (`components/AddToListSheet.tsx`):
  - the five options;
  - highlighting;
  - when removal is offered;
  - the order of the store call, the callbacks and the close call.

Two further modules hold shared definitions:
- **`Wrappers`**: `Option`, `Outcome` and `Fetched`.
- **`Strings`**: ASCII versions of the JavaScript string built-ins used
  (`split`, `join`, `toLowerCase`, `includes`, `trim`, `replace` with a string
  pattern), with lemmas about them.

Effects are parameters of the operations that need them:
- the database open outcome and the transaction outcome;
- API results (`Fetched<T>`);
- the current time;
- `encodeURIComponent` (a function parameter);
- the observer's `isIntersecting` flag;
- whether a list context is mounted.

Where the specification and the code differ, the model follows the code. In
particular:
- `App.tsx` routes only seven patterns. Links to `/my-list`, `/genre/:slug`
  and `/batch/:slug` reach no page: see `Routes.UnroutedPaths`.
- `ListPage.tsx` reads `response.pagination.has_next_page` without checking
  that the pagination is there. When `pagination` is `false`, the read gives
  `undefined`, so the page ends with no next page and success. When
  `pagination` is absent, the read throws after the list has already been
  merged, and the page ends in the error state.
- The add-to-list sheet spells the category `Plan to Watch`, while the
  detail page's button reads `Plan To Watch`: see
  `AddToListSheet.SheetLabelsVersusButton`.

## Model

| member | source | states |
|---|---|---|
| Types.ParseStatus | types.ts:115 | a parsed key is the key of the category it returns |
| Types.StatusKeyRoundTrip | types.ts:115 | every category's key parses back to that category |
| Router.Segments | lib/memory-router.tsx:6-7 | the non-empty pieces between `/`, none holding a `/` |
| Router.MatchPath | lib/memory-router.tsx:5-24 | the loop returns exactly the recursive specification `Match` |
| Router.MatchFromSpec | lib/memory-router.tsx:15-21 | matching succeeds iff every literal segment equals the path's, and then yields the captured parameters |
| Router.Match | lib/memory-router.tsx:5-24 | `matchPath`: the segment counts are compared first, then each segment in turn; what this means is stated by Router.MatchIff and Router.CapturesSpec |
| Router.MatchIff | lib/memory-router.tsx:5-24 | a pattern matches iff it has as many segments as the path and the literals agree; the result is then the captures |
| Router.CapturesSpec | lib/memory-router.tsx:13-17 | the captured names are exactly the parameter names; a name bound twice takes the path segment under its last occurrence |
| Router.RootMatchesOnlyEmptyPaths | lib/memory-router.tsx:5-11 | `/` matches exactly the paths with no segment, with no parameters |
| Router.SplitLocation | lib/memory-router.tsx:41-46 | the path never holds a `?`; the search is empty or a `?` followed by at least one character |
| Router.SplitLocationNoQuery | lib/memory-router.tsx:41-46 | a location without `?` is all path with an empty search |
| Router.SplitLocationWithQuery | lib/memory-router.tsx:41-46 | the path is the text before the first `?`; the search is `?` plus the next piece, or empty when that piece is empty; text after a second `?` is dropped |
| Router.BackUndoesPush | lib/memory-router.tsx:37-54 | going back after a navigation restores the history; a non-empty target becomes current; back never empties the history and leaves a single entry alone |
| Router.MemoryRouter.constructor | lib/memory-router.tsx:37 | the history starts as the root location alone |
| Router.MemoryRouter.UseRoute | lib/memory-router.tsx:73-81 | the flag holds iff there are parameters, which are the match of the pattern against the current path |
| Router.MemoryRouter.Navigate | lib/memory-router.tsx:48-50 | appends the target to the history, which stays non-empty |
| Router.MemoryRouter.GoBack | lib/memory-router.tsx:52-54 | drops the last entry unless it is the only one |
| Router.MemoryRouter.FollowLink | lib/memory-router.tsx:120-134 | navigates to the link's target when it has one, and otherwise leaves the history alone |
| Router.LinkTarget | lib/memory-router.tsx:124-127 | a target exists iff `to` or `href` is non-empty; `to` wins when non-empty |
| Router.Dispatch | lib/memory-router.tsx:98-114 | `Switch` over the children in order; what it renders is stated by Router.DispatchFirstMatch |
| Router.DispatchFirstMatch | lib/memory-router.tsx:98-114 | nothing renders iff no route with a path matches; otherwise the first matching route renders with its parameters |
| Router.Switch | lib/memory-router.tsx:98-114 | the loop returns exactly the specification `Dispatch` |
| Routes.RouteTable | App.tsx:35-43 | the page each path reaches, stated on its segments: home for none, three one-word pages, three pages with a parameter, otherwise nothing |
| Routes.RoutesDisjoint | App.tsx:36-42 | no path is matched by two routes of the table |
| Routes.AppRoutesOrderFree | App.tsx:36-42 | any reordering of the table dispatches every path the same way |
| Routes.HomeOnlyAtRoot | App.tsx:36 | the home page renders exactly for paths with no segment |
| Routes.UnroutedLinks | App.tsx:35-43 | a one-word path other than the three routed words, or a two-segment path under any other word, reaches no page |
| Routes.UnroutedPaths | App.tsx:35-43 | `/my-list`, `/genre/x` and `/batch/x` reach no page |
| Routes.WatchLinksHideNav | App.tsx:29-45 | a watch link is all path, renders the watch page with its slug, and hides the bottom navigation |
| Db.ItemData | services/db.ts:72-90 | the item written for an anime, a category and a time; its fields are stated by Db.ItemDataFields |
| Db.ItemDataFields | services/db.ts:72-90 | the item holds the anime's title, slug, poster, rating and genres, the category and the time, plus the first listed episode exactly when an ongoing detail has episodes, and the episode count exactly otherwise |
| Db.BuildItemData | services/db.ts:73-90 | the imperative construction yields the record specification `ItemData` |
| Db.Clean | services/db.ts:92-94 | keeps exactly the properties whose value is not `undefined`, with their values |
| Db.ListRecordReadsBack | services/db.ts:69-94 | the written record reads back as the item's own fields, the chosen category and time, plus the first listed episode for an ongoing detail with episodes, and otherwise the episode count |
| Db.ListRecordShape | services/db.ts:83-94 | no property is `undefined`; `current_episode` is present iff the item is ongoing with episodes; `episode_count` iff not and the item has a count |
| Db.OngoingListingLosesCurrentEpisode | services/db.ts:83-90 | a record written from an airing catalogue entry carries neither episode property |
| Db.SlugMissingIff | services/db.ts:96-100 | the slug check rejects exactly the items with an empty slug |
| Db.MyListStore.constructor | services/db.ts:8 | nothing is cached yet |
| Db.MyListStore.GetDB | services/db.ts:10-35 | the first call caches the open outcome, a failure included; later calls return the cache and never reopen |
| Db.MyListStore.AddToList | services/db.ts:69-103 | an empty slug fails before opening; a failed open or transaction leaves the store unchanged; success stores the cleaned record under the slug |
| Db.MyListStore.RemoveFromList | services/db.ts:105-107 | on success exactly that key is gone; failures leave the store unchanged |
| Db.MyListStore.GetItem | services/db.ts:109-111 | the record under the slug, or none; the store is unchanged |
| Db.MyListStore.GetAll | services/db.ts:113-115 | on success, every stored record exactly once |
| Db.MyListStore.Listing | services/db.ts:113-115 | the loop lists each key's record once and covers every key |
| Bookmarks.AddBookmark | contexts/BookmarksContext.tsx:33-40 | the old list is a prefix of the new one, which is at most one entry longer |
| Bookmarks.AddBookmarkSpec | contexts/BookmarksContext.tsx:33-40 | the old list is a prefix of the new one, which is at most one entry longer and has the slug; the slugs afterwards are the old ones plus the added one; the list is unchanged iff the slug was already there |
| Bookmarks.AddPreservesDistinct | contexts/BookmarksContext.tsx:33-40 | adding keeps slugs distinct |
| Bookmarks.RemoveBookmark | contexts/BookmarksContext.tsx:42-44 | keeps exactly the entries with another slug |
| Bookmarks.RemoveBookmarkSpec | contexts/BookmarksContext.tsx:42-44 | the slug is gone and every other slug keeps its membership |
| Bookmarks.RemovePreservesDistinct | contexts/BookmarksContext.tsx:42-44 | removing keeps slugs distinct |
| Bookmarks.AddThenRemove | contexts/BookmarksContext.tsx:33-44 | removing a slug just added restores the list |
| Bookmarks.BookmarksProvider.constructor | contexts/BookmarksContext.tsx:15-23 | the state starts as the parsed saved list, or empty when nothing was saved or it does not parse |
| Bookmarks.BookmarksProvider.Add | contexts/BookmarksContext.tsx:33-40 | the new state is `AddBookmark` of the old |
| Bookmarks.BookmarksProvider.Remove | contexts/BookmarksContext.tsx:42-44 | the new state is `RemoveBookmark` of the old |
| Bookmarks.BookmarksProvider.IsBookmarked | contexts/BookmarksContext.tsx:46-48 | true iff some bookmark has the slug |
| Paging.StartStatus | pages/GenrePage.tsx:31 | `loading` exactly for page 1, `loading-more` otherwise |
| Paging.NoSecondLoad | pages/GenrePage.tsx:66 | once a fetch has started, the observer cannot start another |
| Paging.Merged | pages/GenrePage.tsx:37 | the result ends with the page's items; page 1 leaves nothing before them, and any other page keeps the old list in front |
| Paging.LaterPagesAppend | pages/GenrePage.tsx:37 | later pages append their items in arrival order |
| Paging.FirstPageThenMore | pages/GenrePage.tsx:37 | after a page-1 response, the list is exactly the items of the responses since then |
| GenrePage.FormatSlugToTitle | pages/GenrePage.tsx:10-15 | split at `-`, capitalize each word, join with spaces; its meaning is stated by GenrePage.FormatSlugToTitleChars and GenrePage.FormatSlugToTitleShape |
| GenrePage.FormatSlugToTitleChars | pages/GenrePage.tsx:10-15 | the split-capitalize-join equals a character-wise mapping: dashes become spaces, and each character after the start or a dash is upper-cased |
| GenrePage.FormatSlugToTitleShape | pages/GenrePage.tsx:10-15 | the title has the slug's length and no dash; a character is a space iff the slug's was a dash or a space |
| GenrePage.GenreFeed.constructor | pages/GenrePage.tsx:21-26 | empty list, `loading`, a next page, no error, counter 1 |
| GenrePage.GenreFeed.BeginFetch | pages/GenrePage.tsx:29-32 | without a slug nothing changes; otherwise the start status and no error |
| GenrePage.GenreFeed.Settle | pages/GenrePage.tsx:34-51 | an error keeps the list and sets `error`; a response replaces or appends its array data (a non-array counts as empty), takes `has_next_page` and a truthy `next_page` from pagination, and with no pagination ends the paging |
| GenrePage.GenreFeed.ChangeGenre | pages/GenrePage.tsx:55-60 | a new non-empty slug resets the counter and the list and starts page 1; otherwise nothing else changes |
| GenrePage.GenreFeed.OnIntersect | pages/GenrePage.tsx:63-67 | a fetch of the counter's page starts iff the target is visible, a next page exists, nothing is loading and there is a slug; it then starts in the page's start status with no error, keeping the slug, the list, `hasNextPage` and the counter; otherwise nothing changes |
| ListPage.ListSource | pages/ListPage.tsx:29-35 | `ongoing` and `complete` select their endpoints; anything else is invalid |
| ListPage.Title | pages/ListPage.tsx:80 | `Ongoing Anime` iff the type selects the airing list; otherwise `Completed Anime` |
| ListPage.ListFeed.constructor | pages/ListPage.tsx:15-20 | empty list, `loading`, a next page, no error, counter 1 |
| ListPage.ListFeed.BeginFetch | pages/ListPage.tsx:24-25 | the start status and no error, with no type check |
| ListPage.ListFeed.Settle | pages/ListPage.tsx:27-46 | an invalid type or failed request sets the error and keeps the list; a response merges its data; with pagination it takes `has_next_page` and a truthy `next_page`; with `false` it ends the paging; with none it ends in error after merging |
| ListPage.ListFeed.ChangeType | pages/ListPage.tsx:50-55 | a new non-empty type resets the counter and the list and starts page 1 |
| ListPage.ListFeed.OnIntersect | pages/ListPage.tsx:58-67 | a fetch starts iff the target is visible, a next page exists and nothing is loading; it then starts in the page's start status with no error, keeping the type, the list, `hasNextPage` and the counter; otherwise nothing changes |
| DetailPage.FormatStatusLabel | pages/DetailPage.tsx:16-19 | `Add to List` without a category; otherwise a label as long as the category's key |
| DetailPage.StatusLabelSpec | pages/DetailPage.tsx:16-19 | the label has the key's length; spaces sit exactly where the key has underscores; lower-casing the label gives the key with spaces; word starts are upper case |
| DetailPage.StatusLabelText | pages/DetailPage.tsx:16-19 | the label of each category is its display name, such as `Plan To Watch` |
| DetailPage.StatusLabelDistinct | pages/DetailPage.tsx:16-19 | different categories, and no category, get different labels |
| DetailPage.NumbersFrom | pages/DetailPage.tsx:28 | every token found is a number token inside the text; none are found iff there is no digit |
| DetailPage.NumbersFromSpec | pages/DetailPage.tsx:28 | the tokens come in text order without overlapping, every digit lies inside one of them, and no digit follows the last |
| DetailPage.FirstMarkerNumberSpec | pages/DetailPage.tsx:23-24 | the search fails iff no marker followed by separators and a number occurs; otherwise it returns the leftmost such occurrence |
| DetailPage.GetEpisodeLabel | pages/DetailPage.tsx:21-32 | the label is a number token from the text, `OVA`, `SP`, `MOV` or `??` |
| DetailPage.EpisodeLabelMarked | pages/DetailPage.tsx:23-24 | when a marker with a number occurs, the label is the number of the leftmost occurrence |
| DetailPage.EpisodeLabelExample | pages/DetailPage.tsx:21-24 | `Episode 12` gives `12` |
| DetailPage.EpisodeLabelFallback | pages/DetailPage.tsx:25-31 | without a marked number, the label is `OVA`, `SP` or `MOV` in that priority; failing those, it is the last number token, after which no digit follows, and `??` iff there is no digit |
| DetailPage.SpecialHasSp | pages/DetailPage.tsx:26 | a text containing `special` contains `sp`, so that test alone decides |
| DetailPage.ToggleTwice | pages/DetailPage.tsx:136 | toggling the order twice restores it |
| DetailPage.FilterEpisodes | pages/DetailPage.tsx:103-105 | keeps exactly the episodes whose lower-cased name contains the lower-cased query |
| DetailPage.FilterAppend | pages/DetailPage.tsx:103-105 | filtering distributes over concatenation, so the order is kept |
| DetailPage.FilterEmptyQuery | pages/DetailPage.tsx:103-105 | the empty query keeps every episode in order |
| DetailPage.ReverseReverse | pages/DetailPage.tsx:106-108 | reversing twice restores the list |
| DetailPage.ShownToggle | pages/DetailPage.tsx:102-110 | toggling the order reverses what is shown |
| DetailPage.EpisodeList.constructor | pages/DetailPage.tsx:99-100 | newest first, no filter; all episodes shown in order |
| DetailPage.EpisodeList.ToggleSort | pages/DetailPage.tsx:136 | flips the order and reverses the shown list |
| DetailPage.EpisodeList.SetQuery | pages/DetailPage.tsx:131 | sets the query and keeps the order |
| DetailPage.GetDetails | pages/DetailPage.tsx:241-244 | rejects with `Anime slug is missing in URL.` iff the slug is missing or empty; otherwise requests that slug |
| DetailPage.AnimeData | pages/DetailPage.tsx:249-253 | present iff data is; an empty slug is replaced by the route's |
| DetailPage.AnimeDataHasSlug | pages/DetailPage.tsx:249-253 | with a route slug, the shown record always has a slug |
| DetailPage.StatusChangeMessage | pages/DetailPage.tsx:296-299 | the message is the new category's label with twelve characters of framing |
| DetailPage.StatusChangeMessageSpec | pages/DetailPage.tsx:296-300 | the message quotes the new category's label, and says `Added` iff the title had no category before, otherwise `Moved` |
| DetailPage.ListLinkLocation | pages/DetailPage.tsx:262 | the toast action opens `/my-list` with the search `?status=<key>` |
| DetailPage.ListLinkNamesStatus | pages/DetailPage.tsx:262 | the action's status parameter parses back to the new category |
| DetailPage.DetailView.constructor | pages/DetailPage.tsx:222-225 | the `about` tab and a hidden toast |
| DetailPage.DetailView.ShowToast | pages/DetailPage.tsx:258-263 | shows the message, with a list action iff a category is given |
| DetailPage.DetailView.HandleStatusChange | pages/DetailPage.tsx:296-302 | shows the added or moved message with the category's list action |
| DetailPage.DetailView.HandleRemove | pages/DetailPage.tsx:304-306 | shows `Removed from your list.` without an action |
| DetailPage.DetailView.HideToast | pages/DetailPage.tsx:264-266 | the toast returns to hidden and empty |
| DetailPage.DetailView.SelectTab | pages/DetailPage.tsx:222 | sets the active tab; the toast is unchanged |
| AnimeCard.EpisodeInfo | components/AnimeCard.tsx:15-20 | no badge text iff the record has neither `current_episode` nor `episode_count` |
| AnimeCard.OngoingBadge | components/AnimeCard.tsx:16-17 | the first `Episode ` becomes `Ep `; text without it is unchanged |
| AnimeCard.CompleteBadge | components/AnimeCard.tsx:18-19 | the count followed by ` Eps` |
| AnimeCard.ReplaceFirstEmptyIff | components/AnimeCard.tsx:17 | shortening yields the empty text iff the text was empty |
| AnimeCard.BadgeShownIff | components/AnimeCard.tsx:35 | the badge shows iff the episode text is non-empty, or there is no episode text and there is a count |
| AnimeCard.ListedBadge | components/AnimeCard.tsx:12-20 | a card for a list record shows the shortened latest episode for an ongoing detail with episodes, otherwise its count, otherwise nothing |
| AnimeCard.ListedRating | components/AnimeCard.tsx:28 | a list record shows the rating chip iff the title it came from did |
| AnimeCard.CardLinkOpensDetail | components/AnimeCard.tsx:23 | the card's link renders the detail page with the card's slug and keeps the bottom navigation |
| HomePage.GetGenreIcon | pages/HomePage.tsx:11-39 | the icon is `movie_filter` or one of the switch's icons |
| HomePage.LookupIcon | pages/HomePage.tsx:11-39 | the icon is the default or one of the table's icons |
| HomePage.GenreIconSpec | pages/HomePage.tsx:11-39 | an unlisted name gets `movie_filter`; a listed name gets its case's icon |
| HomePage.GenreIconCaseInsensitive | pages/HomePage.tsx:12 | names equal up to case get the same icon |
| HomePage.ActionIcon | pages/HomePage.tsx:13 | `Action` gets `swords` |
| HomePage.SciFiIcon | pages/HomePage.tsx:20 | `Sci-Fi` gets `rocket_launch` |
| HomePage.SliceOfLifeIcon | pages/HomePage.tsx:21 | `Slice of Life` gets `bakery_dining` |
| HomePage.PageError | pages/HomePage.tsx:55 | an error shows iff either fetch failed; the home feed's error wins |
| HomePage.HomeView.constructor | pages/HomePage.tsx:45 | the query starts empty |
| HomePage.HomeView.SetQuery | pages/HomePage.tsx:75 | sets the query |
| HomePage.HomeView.HandleSearchSubmit | pages/HomePage.tsx:48-53 | navigates to the search page with the encoded, untrimmed query iff the trimmed query is non-empty |
| HomePage.SubmitNavigatesIff | pages/HomePage.tsx:50 | a submit navigates iff the query has a character that is not white space |
| HomePage.SearchTargetOpensSearch | pages/HomePage.tsx:51 | the target renders the search page and carries `?q=` and the encoded query as its search |
| HomePage.ViewAllLinksOpenListing | pages/HomePage.tsx:84-85 | both `View all` links render the listing page, whose type then selects the matching endpoint |
| AddToListSheet.ListOptionsExactlyOnce | components/AddToListSheet.tsx:15-21 | five options, one per category |
| AddToListSheet.HighlightIff | components/AddToListSheet.tsx:57-68 | removal is offered iff some option is highlighted, and at most one is |
| AddToListSheet.SheetLabelsVersusButton | components/AddToListSheet.tsx:15-21 | each option's text equals the detail page's label exactly when the category is not `plan_to_watch` |
| AddToListSheet.HandleStatusSelect | components/AddToListSheet.tsx:26-31 | without a list context, no call; otherwise the store call comes first, and the callback and close follow only on success |
| AddToListSheet.HandleRemove | components/AddToListSheet.tsx:33-38 | without a list context, no call; otherwise removal by slug comes first, and the callback and close follow only on success |

## Left out

- IndexedDB itself: upgrade handling, the index on `list_status` and transaction events. The model keeps a map keyed by slug. The open outcome and the transaction outcome are inputs.
- Db.MyListStore.GetAll: the order of `getAll` is IndexedDB's key order. The model promises every record once, in some order. The `|| []` fallback is not modelled, because a successful `getAll` always yields an array.
- The `MyListContext` and `ThemeContext` providers are not part of this model. `pages/DetailPage.tsx:9` and `components/AddToListSheet.tsx:2` import `MyListContext` from `contexts/BookmarksContext.tsx`, which exports only `BookmarksContext` and `BookmarksProvider` (lines 12-14): the `hasContext` parameter stands for a provider the shown source does not define. The sheet sees the list context only as whether it is mounted and as the outcome of the store call.
- `localStorage`, `JSON.parse` and `JSON.stringify`: the saved bookmarks are an input (absent, unparsable or a list). A saved value that parses to something other than an array is not modelled. Writing the list back is an effect that is left out.
- The network layer (`services/api.ts`, `hooks/useApi.ts`): responses are inputs of type `Fetched<T>`. The `getAnimeByGenre` call that the genre page makes is not defined in `services/api.ts`. It is an input here.
- Concurrency: asynchronous fetches are modelled as a start step and a settle step that the caller orders. Overlapping requests, out-of-order responses and state updates batched by React are not modelled.
- Timers and browser APIs: the four-second toast timer is the separate `HideToast` step. The `IntersectionObserver` is the `intersecting` parameter of `OnIntersect`. `navigator.share` and the clipboard are not modelled. Neither are the toasts they show, or the scroll tracking.
- `encodeURIComponent` is a function parameter of `HandleSearchSubmit`.
- Unicode: strings are sequences of characters with ASCII case mapping and ASCII white space. `\w`, `\b` and `\s` in the source's regular expressions and `toLowerCase` and `trim` behave identically on ASCII text only.
- DetailPage.GetEpisodeLabel: the regular expressions are modelled by a hand-written scanner over ASCII text. Match positions follow JavaScript's leftmost-first rule.
- ListPage.ListFeed.Settle: a `pagination` of `false` leaves `hasNextPage` as `undefined` in the source. The model stores `false`, which every guard treats the same. The error text for a missing pagination is the engine's wording. Only the fact that the page ends in the error state is significant. Response data is taken to be an array.
- GenrePage.GenreFeed.Settle: requires a genre slug, because `fetchAnimes` returns before any request when there is none (`BeginFetch` models that early return).
- The pages `WatchPage`, `SearchPage`, `SchedulePage`, `BookmarksPage` and `BatchPage`, and the components `AppBar`, `BottomNav`, `Icon` and `Toast` are not part of this model. Neither are the rendering, styling and loading skeletons of the modelled pages.
