/**
 * The bookmark list: a list of titles kept in insertion order, added to
 * only when no bookmark has the same slug, and removed from by slug.
 */
module Bookmarks {
  import opened Wrappers
  import opened Types

  /** `bookmarks.some(b => b.slug === slug)`. */
  predicate HasSlug(list: seq<Anime>, slug: string)
  {
    exists i :: 0 <= i < |list| && list[i].slug == slug
  }

  /** The list after `addBookmark(anime)`: appended unless its slug is already present. */
  function AddBookmark(list: seq<Anime>, anime: Anime): (r: seq<Anime>)
    ensures list <= r && |r| <= |list| + 1
  {
    if HasSlug(list, anime.slug) then list else list + [anime]
  }

  /** The list after `removeBookmark(slug)`: every entry with that slug filtered out. */
  function RemoveBookmark(list: seq<Anime>, slug: string): (r: seq<Anime>)
    ensures |r| <= |list|
    ensures forall x :: x in r <==> x in list && x.slug != slug
  {
    if list == [] then []
    else (if list[0].slug == slug then [] else [list[0]]) + RemoveBookmark(list[1..], slug)
  }

  /** No two bookmarks share a slug. */
  predicate DistinctSlugs(list: seq<Anime>)
  {
    forall i, j :: 0 <= i < j < |list| ==> list[i].slug != list[j].slug
  }

  /** What the stored `bookmarks` value can be when the provider starts. */
  datatype Saved = Absent | Unparsable | Parsed(list: seq<Anime>)

  /** The initial list: the parsed stored value, and `[]` when it is absent or unparsable. */
  function InitialBookmarks(saved: Saved): (r: seq<Anime>)
    ensures saved.Parsed? ==> r == saved.list
    ensures !saved.Parsed? ==> r == []
  {
    match saved
    case Parsed(list) => list
    case _ => []
  }

  /** Adding keeps the old list as a prefix, grows it by at most the new title, and makes its slug present. */
  lemma AddBookmarkSpec(list: seq<Anime>, anime: Anime)
    ensures var r := AddBookmark(list, anime);
      list <= r && |r| <= |list| + 1 && HasSlug(r, anime.slug)
    ensures forall s :: HasSlug(AddBookmark(list, anime), s) <==> HasSlug(list, s) || s == anime.slug
    ensures HasSlug(list, anime.slug) <==> AddBookmark(list, anime) == list
  {
    var r := AddBookmark(list, anime);
    if !HasSlug(list, anime.slug) {
      assert r[|list|] == anime;
      forall s | HasSlug(r, s)
        ensures HasSlug(list, s) || s == anime.slug
      {
        var i :| 0 <= i < |r| && r[i].slug == s;
        if i < |list| {
          assert list[i] == r[i];
        }
      }
      forall s | HasSlug(list, s)
        ensures HasSlug(r, s)
      {
        var i :| 0 <= i < |list| && list[i].slug == s;
        assert r[i] == list[i];
      }
    }
  }

  /** Adding never introduces a second bookmark with the same slug. */
  lemma AddPreservesDistinct(list: seq<Anime>, anime: Anime)
    requires DistinctSlugs(list)
    ensures DistinctSlugs(AddBookmark(list, anime))
  {
    var r := AddBookmark(list, anime);
    if !HasSlug(list, anime.slug) {
      forall i, j | 0 <= i < j < |r|
        ensures r[i].slug != r[j].slug
      {
        if j == |list| {
          assert r[i] == list[i];
        } else {
          assert r[i] == list[i] && r[j] == list[j];
        }
      }
    }
  }

  /** Filtering distributes over concatenation, so the kept entries stay in order. */
  lemma {:induction false} RemoveAppend(a: seq<Anime>, b: seq<Anime>, slug: string)
    ensures RemoveBookmark(a + b, slug) == RemoveBookmark(a, slug) + RemoveBookmark(b, slug)
  {
    if a != [] {
      assert (a + b)[0] == a[0] && (a + b)[1..] == a[1..] + b;
      RemoveAppend(a[1..], b, slug);
    } else {
      assert a + b == b;
    }
  }

  /** Removing a slug no entry has leaves the list as it is. */
  lemma {:induction false} RemoveAbsent(list: seq<Anime>, slug: string)
    requires !HasSlug(list, slug)
    ensures RemoveBookmark(list, slug) == list
  {
    if list != [] {
      forall i | 0 <= i < |list[1..]|
        ensures list[1..][i].slug != slug
      {
        assert list[1..][i] == list[i + 1];
      }
      RemoveAbsent(list[1..], slug);
      assert list[0].slug != slug;
      assert list == [list[0]] + list[1..];
    }
  }

  /** After removal no bookmark has that slug, and every other bookmark is still there. */
  lemma RemoveBookmarkSpec(list: seq<Anime>, slug: string)
    ensures !HasSlug(RemoveBookmark(list, slug), slug)
    ensures forall s :: s != slug ==> (HasSlug(RemoveBookmark(list, slug), s) <==> HasSlug(list, s))
  {
    var r := RemoveBookmark(list, slug);
    forall s | HasSlug(list, s) && s != slug
      ensures HasSlug(r, s)
    {
      var i :| 0 <= i < |list| && list[i].slug == s;
      assert list[i] in r;
    }
    forall s | HasSlug(r, s)
      ensures HasSlug(list, s) && s != slug
    {
      var i :| 0 <= i < |r| && r[i].slug == s;
      assert r[i] in list;
    }
  }

  /** Removing keeps slugs distinct. */
  lemma {:induction false} RemovePreservesDistinct(list: seq<Anime>, slug: string)
    requires DistinctSlugs(list)
    ensures DistinctSlugs(RemoveBookmark(list, slug))
  {
    if list != [] {
      var rest := RemoveBookmark(list[1..], slug);
      RemovePreservesDistinct(list[1..], slug);
      if list[0].slug != slug {
        forall j | 0 <= j < |rest|
          ensures list[0].slug != rest[j].slug
        {
          assert rest[j] in list[1..];
          var k :| 0 <= k < |list[1..]| && list[1..][k] == rest[j];
          assert list[k + 1] == rest[j];
        }
      }
    }
  }

  /** Adding a title whose slug is absent and then removing that slug gives the original list back. */
  lemma AddThenRemove(list: seq<Anime>, anime: Anime)
    requires !HasSlug(list, anime.slug)
    ensures RemoveBookmark(AddBookmark(list, anime), anime.slug) == list
  {
    RemoveAppend(list, [anime], anime.slug);
    RemoveAbsent(list, anime.slug);
    assert RemoveBookmark([anime], anime.slug) == [];
  }

  /** The provider's `bookmarks` state cell. */
  class BookmarksProvider {
    var bookmarks: seq<Anime>

    /** The cell starts from the stored value. */
    constructor (saved: Saved)
      ensures bookmarks == InitialBookmarks(saved)
    {
      bookmarks := InitialBookmarks(saved);
    }

    method Add(anime: Anime)
      modifies this
      ensures bookmarks == AddBookmark(old(bookmarks), anime)
    {
      if !HasSlug(bookmarks, anime.slug) {
        bookmarks := bookmarks + [anime];
      }
    }

    method Remove(slug: string)
      modifies this
      ensures bookmarks == RemoveBookmark(old(bookmarks), slug)
    {
      bookmarks := RemoveBookmark(bookmarks, slug);
    }

    /** `isBookmarked(slug)`: some bookmark has that slug. */
    function IsBookmarked(slug: string): (r: bool)
      reads this
      ensures r <==> exists b :: b in bookmarks && b.slug == slug
    {
      HasSlug(bookmarks, slug)
    }
  }
}
