/**
 * The pieces the two infinitely scrolling listings share: the load status,
 * how a fetched page joins the list, how the pagination record moves the
 * page counter, and the load-more guard.
 */
module Paging {
  import opened Wrappers
  import opened Types
  import Strings

  /** `'loading' | 'loading-more' | 'error' | 'success'`. */
  datatype LoadStatus = Loading | LoadingMore | Success | Error

  /** The status a fetch of `page` starts in. */
  function StartStatus(page: int): (s: LoadStatus)
    ensures s == Loading <==> page == 1
    ensures s == Loading || s == LoadingMore
  {
    if page == 1 then Loading else LoadingMore
  }

  /** A fetch is under way. */
  predicate InFlight(s: LoadStatus)
  {
    s == Loading || s == LoadingMore
  }

  /** The list after a page arrives: page 1 replaces it, any other page is appended. */
  function Merged<T>(prev: seq<T>, page: int, data: seq<T>): (r: seq<T>)
    ensures |r| == (if page == 1 then 0 else |prev|) + |data|
    ensures r[|r| - |data|..] == data
    ensures page != 1 ==> r[..|prev|] == prev
  {
    if page == 1 then data else prev + data
  }

  /** `pagination.next_page` is truthy: present and not zero. */
  predicate NextPageTruthy(p: Pagination)
  {
    p.next_page.Some? && p.next_page.value != 0
  }

  /** The page counter after a page arrives with pagination `p`: moved only by a truthy `next_page`. */
  function NextCounter(counter: int, p: Pagination): int
  {
    if NextPageTruthy(p) then p.next_page.value else counter
  }

  /** The observer's condition for loading the next page. */
  predicate CanLoadMore(intersecting: bool, hasNextPage: bool, status: LoadStatus)
  {
    intersecting && hasNextPage && status != Loading && status != LoadingMore
  }

  /** Once a fetch has started, the observer cannot start another. */
  lemma NoSecondLoad(page: int, intersecting: bool, hasNextPage: bool)
    ensures !CanLoadMore(intersecting, hasNextPage, StartStatus(page))
  {
  }

  /** The pages' items one after another. */
  function Concat<T>(pages: seq<seq<T>>): seq<T>
  {
    if pages == [] then [] else pages[0] + Concat(pages[1..])
  }

  /** The list after the pages `(number, items)` arrive one after another. */
  function MergeAll<T>(prev: seq<T>, arrivals: seq<(int, seq<T>)>): seq<T>
    decreases |arrivals|
  {
    if arrivals == [] then prev else MergeAll(Merged(prev, arrivals[0].0, arrivals[0].1), arrivals[1..])
  }

  function Items<T>(arrivals: seq<(int, seq<T>)>): (r: seq<seq<T>>)
    ensures |r| == |arrivals| && forall i :: 0 <= i < |r| ==> r[i] == arrivals[i].1
  {
    if arrivals == [] then [] else [arrivals[0].1] + Items(arrivals[1..])
  }

  /** Pages other than the first only ever append. */
  lemma {:induction false} LaterPagesAppend<T>(prev: seq<T>, arrivals: seq<(int, seq<T>)>)
    requires forall i :: 0 <= i < |arrivals| ==> arrivals[i].0 != 1
    ensures MergeAll(prev, arrivals) == prev + Concat(Items(arrivals))
    decreases |arrivals|
  {
    if arrivals != [] {
      var first := arrivals[0].1;
      var rest := Concat(Items(arrivals[1..]));
      assert Merged(prev, arrivals[0].0, first) == prev + first;
      assert MergeAll(prev, arrivals) == MergeAll(prev + first, arrivals[1..]);
      LaterPagesAppend(prev + first, arrivals[1..]);
      assert Items(arrivals)[1..] == Items(arrivals[1..]);
      assert Concat(Items(arrivals)) == first + rest;
      Strings.RegroupThree(prev, first, rest);
    }
  }

  /**
   * Loading page 1 and then only later pages leaves exactly the fetched
   * items, in arrival order, whatever the list held before.
   */
  lemma FirstPageThenMore<T>(prev: seq<T>, arrivals: seq<(int, seq<T>)>)
    requires |arrivals| >= 1 && arrivals[0].0 == 1
    requires forall i :: 1 <= i < |arrivals| ==> arrivals[i].0 != 1
    ensures MergeAll(prev, arrivals) == Concat(Items(arrivals))
  {
    LaterPagesAppend(arrivals[0].1, arrivals[1..]);
    assert Items(arrivals)[1..] == Items(arrivals[1..]);
  }
}
