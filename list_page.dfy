/**
 * The listing of airing or finished titles: which endpoint the list type
 * selects, the page title, and the state of the infinitely scrolling list.
 * Unlike the genre listing, a settled request reads `pagination` without
 * checking that it is there.
 */
module ListPage {
  import opened Wrappers
  import opened Types
  import opened Paging

  /** The two listings the route can name. */
  datatype ListKind = Ongoing | Complete

  /** The two `type` values the listing serves. */
  const OngoingType := "ongoing"
  const CompleteType := "complete"

  /** The endpoint the `type` parameter selects; anything else is invalid. */
  function ListSource(listType: Option<string>): (r: Option<ListKind>)
    ensures r == Some(Ongoing) <==> listType == Some(OngoingType)
    ensures r == Some(Complete) <==> listType == Some(CompleteType)
  {
    if listType == Some(OngoingType) then Some(Ongoing)
    else if listType == Some(CompleteType) then Some(Complete)
    else None
  }

  /** The page title: `Ongoing Anime` for the airing list, `Completed Anime` for every other type. */
  function Title(listType: Option<string>): (r: string)
    ensures r == "Ongoing Anime" <==> ListSource(listType) == Some(Ongoing)
    ensures r == "Ongoing Anime" || r == "Completed Anime"
  {
    if listType == Some(OngoingType) then "Ongoing Anime" else "Completed Anime"
  }

  const InvalidListTypeMessage := "Invalid list type"

  /** What the engine reports when `response.pagination.has_next_page` is read from a response without pagination. */
  const PaginationTypeErrorMessage := "Cannot read properties of undefined (reading 'has_next_page')"

  /** The state cells and the page counter of the listing. */
  class ListFeed {
    var listType: Option<string>
    var animes: seq<AnyAnime>
    var status: LoadStatus
    var hasNextPage: bool
    var error: Option<string>
    var pageToFetch: int

    constructor (listType: Option<string>)
      ensures this.listType == listType && animes == [] && status == Loading && hasNextPage
      ensures error == None && pageToFetch == 1
    {
      this.listType := listType;
      animes := [];
      status := Loading;
      hasNextPage := true;
      error := None;
      pageToFetch := 1;
    }

    /** The synchronous start of `fetchAnimes(page)`: the start status and no error, with or without a type. */
    method BeginFetch(page: int)
      modifies this
      ensures status == StartStatus(page) && error == None
      ensures listType == old(listType) && animes == old(animes) && hasNextPage == old(hasNextPage)
      ensures pageToFetch == old(pageToFetch)
    {
      status := if page == 1 then Loading else LoadingMore;
      error := None;
    }

    /**
     * The rest of `fetchAnimes(page)`. `response` is the outcome of the
     * request the list type selects; with an invalid type no request is
     * made and `response` plays no part.
     */
    method Settle(page: int, response: Fetched<PaginatedAnimeResponse<AnyAnime>>)
      modifies this
      ensures listType == old(listType)
      ensures ListSource(listType).None? ==>
        status == Error && error == Some(InvalidListTypeMessage)
        && animes == old(animes) && hasNextPage == old(hasNextPage) && pageToFetch == old(pageToFetch)
      ensures ListSource(listType).Some? && response.Failed? ==>
        status == Error && error == Some(response.message)
        && animes == old(animes) && hasNextPage == old(hasNextPage) && pageToFetch == old(pageToFetch)
      ensures ListSource(listType).Some? && response.Loaded? ==>
        var r := response.value;
        animes == Merged(old(animes), page, r.data)
        && (r.pagination.WithPagination? ==>
              status == Success && error == old(error) && hasNextPage == r.pagination.pagination.has_next_page
              && pageToFetch == NextCounter(old(pageToFetch), r.pagination.pagination))
        && (r.pagination.PaginationFalse? ==>
              status == Success && error == old(error) && !hasNextPage && pageToFetch == old(pageToFetch))
        && (r.pagination.PaginationAbsent? ==>
              status == Error && error == Some(PaginationTypeErrorMessage)
              && hasNextPage == old(hasNextPage) && pageToFetch == old(pageToFetch))
    {
      if ListSource(listType).None? || response.Failed? {
        error := Some(if ListSource(listType).None? then InvalidListTypeMessage else response.message);
        status := Error;
        return;
      }
      var r := response.value;
      animes := Merged(animes, page, r.data);
      match r.pagination {
        case PaginationAbsent =>
          error := Some(PaginationTypeErrorMessage);
          status := Error;
        case PaginationFalse =>
          hasNextPage := false;
          status := Success;
        case WithPagination(p) =>
          hasNextPage := p.has_next_page;
          if p.next_page.Some? && p.next_page.value != 0 {
            pageToFetch := p.next_page.value;
          }
          status := Success;
      }
    }

    /** The effect on a new type: nothing without one; otherwise counter 1, empty list, fetch page 1. */
    method ChangeType(newType: Option<string>)
      modifies this
      ensures listType == newType
      ensures !(newType.Some? && newType.value != "") ==>
        animes == old(animes) && status == old(status) && hasNextPage == old(hasNextPage)
        && error == old(error) && pageToFetch == old(pageToFetch)
      ensures newType.Some? && newType.value != "" ==>
        pageToFetch == 1 && animes == [] && status == Loading && error == None && hasNextPage == old(hasNextPage)
    {
      listType := newType;
      if !(newType.Some? && newType.value != "") {
        return;
      }
      pageToFetch := 1;
      animes := [];
      BeginFetch(1);
    }

    /** The observer's callback: start loading `pageToFetch` exactly when the guard holds. */
    method OnIntersect(intersecting: bool) returns (started: bool)
      modifies this
      ensures started <==> CanLoadMore(intersecting, old(hasNextPage), old(status))
      ensures !started ==> unchanged(this)
      ensures started ==> status == StartStatus(old(pageToFetch)) && error == None
      ensures listType == old(listType) && hasNextPage == old(hasNextPage)
      ensures animes == old(animes) && pageToFetch == old(pageToFetch)
    {
      started := CanLoadMore(intersecting, hasNextPage, status);
      if started {
        BeginFetch(pageToFetch);
      }
    }
  }
}
