/**
 * The records exchanged with the catalogue API and kept in the personal
 * list. Optional properties are `Option`s; a property that the type
 * declares required is always present.
 */
module Types {
  import opened Wrappers

  datatype Genre = Genre(name: string, slug: string, otakudesu_url: string)

  datatype Episode = Episode(episode: string, slug: string, otakudesu_url: string)

  datatype Recommendation = Recommendation(title: string, slug: string, poster: string, otakudesu_url: string)

  /** A catalogue title: `title`, `slug` and `poster` are required, `rating` and `genres` optional. */
  datatype Anime = Anime(title: string, slug: string, poster: string, rating: Option<string>, genres: Option<seq<Genre>>)

  /** An airing title as listed by the API, carrying its latest episode label. */
  datatype OngoingAnime = OngoingAnime(anime: Anime, current_episode: string, release_day: string, newest_release_date: string)

  /** A finished title as listed by the API, carrying its episode count. */
  datatype CompleteAnime = CompleteAnime(anime: Anime, episode_count: string, last_release_date: string)

  datatype HomeData = HomeData(ongoing_anime: seq<OngoingAnime>, complete_anime: seq<CompleteAnime>)

  datatype BatchLink = BatchLink(slug: string, otakudesu_url: string, uploaded_at: string)

  /**
   * The detail record of one title. `batch` may be null; the episode list
   * and the episode count are required. `show_type` is the API's `type`.
   */
  datatype AnimeDetail = AnimeDetail(
    anime: Anime,
    japanese_title: string,
    produser: string,
    show_type: string,
    status: string,
    episode_count: string,
    duration: string,
    release_date: string,
    studio: string,
    synopsis: string,
    batch: Option<BatchLink>,
    episode_lists: seq<Episode>,
    recommendations: seq<Recommendation>)

  /** Page metadata of a paginated listing; `next_page` and `previous_page` may be null. */
  datatype Pagination = Pagination(
    current_page: int,
    last_visible_page: int,
    has_next_page: bool,
    next_page: Option<int>,
    has_previous_page: bool,
    previous_page: Option<int>)

  /** The `pagination` property of a paginated response: a record, the value `false`, or absent. */
  datatype PaginationField = WithPagination(pagination: Pagination) | PaginationFalse | PaginationAbsent

  datatype PaginatedAnimeResponse<T> = PaginatedAnimeResponse(data: seq<T>, pagination: PaginationField)

  /** The five categories of the personal list. */
  datatype ListStatus = PlanToWatch | Watching | Completed | OnHold | Dropped

  /** The string each category is stored and shown under. */
  function StatusKey(s: ListStatus): string
  {
    match s
    case PlanToWatch => "plan_to_watch"
    case Watching => "watching"
    case Completed => "completed"
    case OnHold => "on_hold"
    case Dropped => "dropped"
  }

  /** Reads a stored category back; any other string is not a category. */
  function ParseStatus(key: string): (r: Option<ListStatus>)
    ensures r.Some? ==> StatusKey(r.value) == key
  {
    if key == "plan_to_watch" then Some(PlanToWatch)
    else if key == "watching" then Some(Watching)
    else if key == "completed" then Some(Completed)
    else if key == "on_hold" then Some(OnHold)
    else if key == "dropped" then Some(Dropped)
    else None
  }

  /** Every category reads back from its key, so there are exactly five distinct keys. */
  lemma StatusKeyRoundTrip(s: ListStatus)
    ensures ParseStatus(StatusKey(s)) == Some(s)
  {
  }

  /** A personal-list record: a title plus its category and time of adding. */
  datatype MyListItem = MyListItem(
    anime: Anime,
    list_status: ListStatus,
    added_at: int,
    current_episode: Option<string>,
    episode_count: Option<string>)

  /**
   * Any of the title-shaped records the pages hand around. The application
   * tells them apart by which properties are present; the accessors below
   * give, for each property, its value when the record has it.
   */
  datatype AnyAnime =
    | PlainAnime(plain: Anime)
    | OngoingEntry(ongoing: OngoingAnime)
    | CompleteEntry(complete: CompleteAnime)
    | DetailEntry(detail: AnimeDetail)
    | ListEntry(item: MyListItem)
    | RecommendationEntry(recommendation: Recommendation)
  {
    /** The common `Anime` part. */
    function Base(): Anime
    {
      match this
      case PlainAnime(a) => a
      case OngoingEntry(o) => o.anime
      case CompleteEntry(c) => c.anime
      case DetailEntry(d) => d.anime
      case ListEntry(m) => m.anime
      case RecommendationEntry(r) => Anime(r.title, r.slug, r.poster, None, None)
    }

    function Slug(): string { Base().slug }

    /** The `status` property, which only a detail record has. */
    function Status(): Option<string>
    {
      if DetailEntry? then Some(detail.status) else None
    }

    /** The `episode_lists` property, which only a detail record has. */
    function EpisodeLists(): Option<seq<Episode>>
    {
      if DetailEntry? then Some(detail.episode_lists) else None
    }

    /** The `current_episode` property: present on airing titles and on list records that kept one. */
    function CurrentEpisode(): Option<string>
    {
      match this
      case OngoingEntry(o) => Some(o.current_episode)
      case ListEntry(m) => m.current_episode
      case _ => None
    }

    /** The `episode_count` property: present on finished titles, detail records and list records that kept one. */
    function EpisodeCount(): Option<string>
    {
      match this
      case CompleteEntry(c) => Some(c.episode_count)
      case DetailEntry(d) => Some(d.episode_count)
      case ListEntry(m) => m.episode_count
      case _ => None
    }
  }
}
