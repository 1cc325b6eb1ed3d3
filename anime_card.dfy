/**
 * The catalogue card: the episode badge it derives from whichever episode
 * property the record has, the rating chip, and the detail link.
 */
module AnimeCard {
  import opened Wrappers
  import opened Strings
  import opened Types
  import opened Router
  import opened Routes
  import opened Db

  const EpisodeWord := "Episode "
  const EpWord := "Ep "
  const EpsSuffix := " Eps"

  /**
   * `episodeInfo`: from `current_episode` when the record has that
   * property, otherwise from `episode_count` when it has that one,
   * otherwise none.
   */
  function EpisodeInfo(a: AnyAnime): (r: Option<string>)
    ensures r.None? <==> a.CurrentEpisode().None? && a.EpisodeCount().None?
  {
    if a.CurrentEpisode().Some? then Some(ReplaceFirst(a.CurrentEpisode().value, EpisodeWord, EpWord))
    else if a.EpisodeCount().Some? then Some(a.EpisodeCount().value + EpsSuffix)
    else None
  }

  /** The badge is rendered when `episodeInfo` is a non-empty text. */
  predicate ShowsBadge(a: AnyAnime)
  {
    EpisodeInfo(a).Some? && EpisodeInfo(a).value != ""
  }

  /**
   * An airing title's badge is its episode text with the first `Episode `
   * shortened to `Ep `, and the text unchanged when it has no `Episode `;
   * this wins over an episode count.
   */
  lemma OngoingBadge(a: AnyAnime)
    requires a.CurrentEpisode().Some?
    ensures var ce := a.CurrentEpisode().value;
      (!Contains(ce, EpisodeWord) ==> EpisodeInfo(a) == Some(ce))
      && (forall i :: FirstOccurrence(ce, EpisodeWord, i) ==>
            EpisodeInfo(a) == Some(ce[..i] + EpWord + ce[i + |EpisodeWord|..]))
  {
    var ce := a.CurrentEpisode().value;
    if !Contains(ce, EpisodeWord) {
      ReplaceFirstAbsent(ce, EpisodeWord, EpWord);
    }
    forall i | FirstOccurrence(ce, EpisodeWord, i)
      ensures EpisodeInfo(a) == Some(ce[..i] + EpWord + ce[i + |EpisodeWord|..])
    {
      ReplaceFirstAt(ce, EpisodeWord, EpWord, i);
    }
  }

  /** A finished title's badge starts with its episode count and ends with ` Eps`. */
  lemma CompleteBadge(a: AnyAnime)
    requires a.CurrentEpisode().None? && a.EpisodeCount().Some?
    ensures var count := a.EpisodeCount().value;
      EpisodeInfo(a).Some? && |EpisodeInfo(a).value| == |count| + 4
      && EpisodeInfo(a).value[..|count|] == count && EpisodeInfo(a).value[|count|..] == EpsSuffix
  {
  }

  /** Shortening never empties a text and never makes an empty one non-empty. */
  lemma {:induction false} ReplaceFirstEmptyIff(s: string, pat: string, rep: string)
    requires pat != "" && rep != ""
    ensures ReplaceFirst(s, pat, rep) == "" <==> s == ""
  {
    if !(pat <= s) && s != [] {
      ReplaceFirstEmptyIff(s[1..], pat, rep);
    }
  }

  /** The badge shows for a non-empty episode text, and for any episode count. */
  lemma BadgeShownIff(a: AnyAnime)
    ensures ShowsBadge(a) <==>
      (a.CurrentEpisode().Some? && a.CurrentEpisode().value != "")
      || (a.CurrentEpisode().None? && a.EpisodeCount().Some?)
  {
    if a.CurrentEpisode().Some? {
      ReplaceFirstEmptyIff(a.CurrentEpisode().value, EpisodeWord, EpWord);
    }
  }

  /**
   * The card of a title read back from the personal list: the first
   * listed episode of an ongoing detail with episodes, shortened; otherwise
   * the title's own episode count; otherwise no badge.
   */
  lemma ListedBadge(anime: AnyAnime, status: ListStatus, now: int)
    ensures AsListItem(ListRecord(anime, status, now)).Some?
    ensures var item := AsListItem(ListRecord(anime, status, now)).value;
      EpisodeInfo(ListEntry(item)) ==
        if HasLatestEpisode(anime) then Some(ReplaceFirst(anime.EpisodeLists().value[0].episode, EpisodeWord, EpWord))
        else if anime.EpisodeCount().Some? then Some(anime.EpisodeCount().value + EpsSuffix)
        else None
  {
    ListRecordReadsBack(anime, status, now);
  }

  /** The rating chip is rendered when `rating` is a non-empty text. */
  predicate ShowsRating(a: AnyAnime)
  {
    a.Base().rating.Some? && a.Base().rating.value != ""
  }

  /** A listed title shows the rating chip exactly when the title it was added from did. */
  lemma ListedRating(anime: AnyAnime, status: ListStatus, now: int)
    ensures AsListItem(ListRecord(anime, status, now)).Some?
    ensures ShowsRating(ListEntry(AsListItem(ListRecord(anime, status, now)).value)) <==> ShowsRating(anime)
  {
    ListRecordReadsBack(anime, status, now);
  }

  /** The card's link target. */
  function CardLink(slug: string): string
  {
    AnimePrefix + slug
  }

  /** Following a card's link opens the detail page with the card's slug, and keeps the bottom navigation. */
  lemma CardLinkOpensDetail(slug: string)
    requires slug != "" && '/' !in slug && '?' !in slug
    ensures SplitLocation(CardLink(slug)).0 == CardLink(slug)
    ensures Dispatch(AppRoutes, CardLink(slug)) == Some(Rendered(DetailPage, map["slug" := slug]))
    ensures !HideBottomNav(CardLink(slug))
  {
    AnimePrefixParts();
    PrefixedLink(AnimePrefix, AnimeWord, slug);
    AnimeSegmentsDispatch(CardLink(slug), slug);
    AnimePrefixKeepsNav(slug);
  }
}
