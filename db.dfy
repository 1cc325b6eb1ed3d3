/**
 * The personal-list record store: one object store keyed by `slug`, opened
 * once and cached, with the record that `addToList` derives from a
 * catalogue item. Opening the database and running a transaction are
 * outcomes passed in by the caller.
 */
module Db {
  import opened Wrappers
  import opened Types

  /** The properties a list record object can carry. */
  datatype Field = Title | SlugField | Poster | Rating | Genres | ListStatusField | AddedAt | CurrentEpisode | EpisodeCount

  /** A property value of a record object; `Undefined` is a property that is set to `undefined`. */
  datatype JsValue = Undefined | Text(text: string) | GenreList(genres: seq<Genre>) | StatusValue(status: ListStatus) | DateValue(time: int)

  /** A record object: the properties it has, each with its value. */
  type JsObject = map<Field, JsValue>

  /** The outcome of opening the database. */
  datatype OpenOutcome = Opened | OpenFailed

  const OpenFailedMessage := "Failed to open DB"
  const SlugMissingMessage := "Cannot add item to list: slug is missing."

  /** An optional text property: `undefined` when absent. */
  function TextOrUndefined(o: Option<string>): JsValue
  {
    if o.Some? then Text(o.value) else Undefined
  }

  /** The item's status is `Ongoing` and it lists at least one episode. */
  predicate HasLatestEpisode(anime: AnyAnime)
  {
    anime.Status() == Some("Ongoing") && anime.EpisodeLists().Some? && |anime.EpisodeLists().value| > 0
  }

  /**
   * `itemData` as `addToList` builds it: the copied properties, the
   * category, the time of adding, and then one of the two episode
   * properties.
   */
  method BuildItemData(anime: AnyAnime, status: ListStatus, now: int) returns (itemData: JsObject)
    ensures itemData == ItemData(anime, status, now)
  {
    var base := anime.Base();
    itemData := map[
      Title := Text(base.title),
      SlugField := Text(base.slug),
      Poster := Text(base.poster),
      Rating := TextOrUndefined(base.rating),
      Genres := if base.genres.Some? then GenreList(base.genres.value) else Undefined,
      ListStatusField := StatusValue(status),
      AddedAt := DateValue(now)
    ];
    var lists := anime.EpisodeLists();
    if anime.Status() == Some("Ongoing") && lists.Some? && |lists.value| > 0 {
      itemData := itemData[CurrentEpisode := Text(lists.value[0].episode)];
    } else {
      itemData := itemData[EpisodeCount := TextOrUndefined(anime.EpisodeCount())];
    }
  }

  /** The object `BuildItemData` produces. */
  function ItemData(anime: AnyAnime, status: ListStatus, now: int): JsObject
  {
    var base := anime.Base();
    var common := map[
      Title := Text(base.title),
      SlugField := Text(base.slug),
      Poster := Text(base.poster),
      Rating := TextOrUndefined(base.rating),
      Genres := if base.genres.Some? then GenreList(base.genres.value) else Undefined,
      ListStatusField := StatusValue(status),
      AddedAt := DateValue(now)
    ];
    if HasLatestEpisode(anime) then common[CurrentEpisode := Text(anime.EpisodeLists().value[0].episode)]
    else common[EpisodeCount := TextOrUndefined(anime.EpisodeCount())]
  }

  /** Each property of `ItemData`, with its value. */
  lemma ItemDataFields(anime: AnyAnime, status: ListStatus, now: int)
    ensures var d := ItemData(anime, status, now); var base := anime.Base();
      Title in d && d[Title] == Text(base.title) && SlugField in d && d[SlugField] == Text(base.slug)
      && Poster in d && d[Poster] == Text(base.poster) && Rating in d && d[Rating] == TextOrUndefined(base.rating)
      && Genres in d && d[Genres] == (if base.genres.Some? then GenreList(base.genres.value) else Undefined)
      && ListStatusField in d && d[ListStatusField] == StatusValue(status) && AddedAt in d && d[AddedAt] == DateValue(now)
      && (CurrentEpisode in d <==> HasLatestEpisode(anime))
      && (HasLatestEpisode(anime) ==> d[CurrentEpisode] == Text(anime.EpisodeLists().value[0].episode))
      && (EpisodeCount in d <==> !HasLatestEpisode(anime))
      && (!HasLatestEpisode(anime) ==> d[EpisodeCount] == TextOrUndefined(anime.EpisodeCount()))
  {
  }

  /** `Object.fromEntries(Object.entries(o).filter(([, v]) => v !== undefined))`. */
  function Clean(o: JsObject): (r: JsObject)
    ensures forall f :: f in r <==> f in o && o[f] != Undefined
    ensures forall f :: f in r ==> r[f] == o[f]
  {
    map f | f in o && o[f] != Undefined :: o[f]
  }

  /** The record `addToList` writes. */
  function ListRecord(anime: AnyAnime, status: ListStatus, now: int): JsObject
  {
    Clean(ItemData(anime, status, now))
  }

  /** `!cleanItem.slug`: the slug property is absent or not a non-empty text. */
  predicate SlugMissing(o: JsObject)
  {
    SlugField !in o || o[SlugField] == Text("") || !o[SlugField].Text?
  }

  /** The record read back as a `MyListItem`, when it has the shape of one. */
  function AsListItem(o: JsObject): Option<MyListItem>
  {
    if Title in o && o[Title].Text? && SlugField in o && o[SlugField].Text? && Poster in o && o[Poster].Text?
      && ListStatusField in o && o[ListStatusField].StatusValue? && AddedAt in o && o[AddedAt].DateValue?
    then
      var text := (f: Field) => if f in o && o[f].Text? then Some(o[f].text) else None;
      Some(MyListItem(
        Anime(o[Title].text, o[SlugField].text, o[Poster].text, text(Rating),
              if Genres in o && o[Genres].GenreList? then Some(o[Genres].genres) else None),
        o[ListStatusField].status, o[AddedAt].time, text(CurrentEpisode), text(EpisodeCount)))
    else None
  }

  /**
   * The written record, read back: the item's own title, slug, poster,
   * rating and genres, the chosen category and time, and exactly one of the
   * episode properties — the first listed episode for an ongoing item with
   * episodes, the item's episode count (when it has one) otherwise. An
   * item's own `current_episode` is never carried over.
   */
  lemma ListRecordReadsBack(anime: AnyAnime, status: ListStatus, now: int)
    ensures AsListItem(ListRecord(anime, status, now)) == Some(MyListItem(
      anime.Base(), status, now,
      if HasLatestEpisode(anime) then Some(anime.EpisodeLists().value[0].episode) else None,
      if HasLatestEpisode(anime) then None else anime.EpisodeCount()))
  {
    ListRecordRequired(anime, status, now);
    ListRecordOptional(anime, status, now);
    ListRecordEpisodes(anime, status, now);
  }

  /** The properties every record has. */
  lemma ListRecordRequired(anime: AnyAnime, status: ListStatus, now: int)
    ensures var o := ListRecord(anime, status, now); var base := anime.Base();
      Title in o && o[Title] == Text(base.title) && SlugField in o && o[SlugField] == Text(base.slug)
      && Poster in o && o[Poster] == Text(base.poster)
      && ListStatusField in o && o[ListStatusField] == StatusValue(status) && AddedAt in o && o[AddedAt] == DateValue(now)
  {
    ItemDataFields(anime, status, now);
  }

  /** The rating and the genres are kept exactly when the item has them. */
  lemma ListRecordOptional(anime: AnyAnime, status: ListStatus, now: int)
    ensures var o := ListRecord(anime, status, now); var base := anime.Base();
      (Rating in o <==> base.rating.Some?) && (Rating in o ==> o[Rating] == Text(base.rating.value))
      && (Genres in o <==> base.genres.Some?) && (Genres in o ==> o[Genres] == GenreList(base.genres.value))
  {
    ItemDataFields(anime, status, now);
  }

  /** Which episode property the record carries, and its text. */
  lemma ListRecordEpisodes(anime: AnyAnime, status: ListStatus, now: int)
    ensures var o := ListRecord(anime, status, now);
      (CurrentEpisode in o <==> HasLatestEpisode(anime))
      && (CurrentEpisode in o ==> o[CurrentEpisode] == Text(anime.EpisodeLists().value[0].episode))
      && (EpisodeCount in o <==> !HasLatestEpisode(anime) && anime.EpisodeCount().Some?)
      && (EpisodeCount in o ==> o[EpisodeCount] == Text(anime.EpisodeCount().value))
  {
    ItemDataFields(anime, status, now);
  }

  /** The record has no `undefined` property, and never both episode properties. */
  lemma ListRecordShape(anime: AnyAnime, status: ListStatus, now: int)
    ensures var o := ListRecord(anime, status, now);
      (forall f :: f in o ==> o[f] != Undefined) && !(CurrentEpisode in o && EpisodeCount in o)
    ensures var o := ListRecord(anime, status, now);
      (CurrentEpisode in o <==> HasLatestEpisode(anime)) &&
      (EpisodeCount in o <==> !HasLatestEpisode(anime) && anime.EpisodeCount().Some?)
  {
    ItemDataFields(anime, status, now);
  }

  /** The record written for an airing title from a catalogue listing keeps its episode count only, never its `current_episode`. */
  lemma OngoingListingLosesCurrentEpisode(o: OngoingAnime, status: ListStatus, now: int)
    ensures CurrentEpisode !in ListRecord(OngoingEntry(o), status, now)
    ensures EpisodeCount !in ListRecord(OngoingEntry(o), status, now)
  {
    ItemDataFields(OngoingEntry(o), status, now);
  }

  /** The slug check rejects exactly the items whose slug is empty. */
  lemma SlugMissingIff(anime: AnyAnime, status: ListStatus, now: int)
    ensures SlugMissing(ListRecord(anime, status, now)) <==> anime.Slug() == ""
  {
    ItemDataFields(anime, status, now);
  }

  /** Every record is stored under its own slug: the store's `keyPath`. */
  ghost predicate KeyedBySlug(records: map<string, JsObject>)
  {
    forall k :: k in records ==> SlugField in records[k] && records[k][SlugField] == Text(k)
  }

  /** The state of `services/db.ts`: the cached open and the object store's contents. */
  class MyListStore {
    var dbPromise: Option<OpenOutcome>
    var records: map<string, JsObject>
    /** How many times the database has been opened. */
    ghost var opens: nat

    ghost predicate Valid()
      reads this
    {
      (dbPromise.None? <==> opens == 0) && opens <= 1 && KeyedBySlug(records)
    }

    constructor (initial: map<string, JsObject>)
      requires KeyedBySlug(initial)
      ensures Valid() && dbPromise == None && records == initial && opens == 0
    {
      dbPromise := None;
      records := initial;
      opens := 0;
    }

    /** `getDB`: the first call opens and caches the outcome, even a failed one; later calls return the cache. */
    method GetDB(open: OpenOutcome) returns (r: OpenOutcome)
      requires Valid()
      modifies this
      ensures Valid() && records == old(records)
      ensures old(dbPromise).Some? ==> r == old(dbPromise).value && dbPromise == old(dbPromise) && opens == old(opens)
      ensures old(dbPromise).None? ==> r == open && dbPromise == Some(open) && opens == 1
    {
      if dbPromise.Some? {
        return dbPromise.value;
      }
      dbPromise := Some(open);
      opens := opens + 1;
      r := open;
    }

    /**
     * `addToList`: derive the record, reject a missing slug before touching
     * the database, then `put` the record under its slug, replacing any
     * record with that slug.
     */
    method AddToList(anime: AnyAnime, status: ListStatus, now: int, open: OpenOutcome, tx: Outcome<string>)
      returns (r: Outcome<string>)
      requires Valid()
      modifies this
      ensures Valid()
      ensures anime.Slug() == "" ==> r == Fail(SlugMissingMessage) && records == old(records) && dbPromise == old(dbPromise)
      ensures anime.Slug() != "" ==> dbPromise == Some(if old(dbPromise).Some? then old(dbPromise).value else open)
      ensures anime.Slug() != "" && dbPromise == Some(OpenFailed) ==> r == Fail(OpenFailedMessage) && records == old(records)
      ensures anime.Slug() != "" && dbPromise == Some(Opened) && tx.Fail? ==> r == tx && records == old(records)
      ensures anime.Slug() != "" && dbPromise == Some(Opened) && tx.Pass? ==>
        r == Pass && records == old(records)[anime.Slug() := ListRecord(anime, status, now)]
    {
      var itemData := BuildItemData(anime, status, now);
      var cleanItem := map f | f in itemData && itemData[f] != Undefined :: itemData[f];
      assert cleanItem == ListRecord(anime, status, now);
      ListRecordRequired(anime, status, now);
      SlugMissingIff(anime, status, now);
      if SlugMissing(cleanItem) {
        return Fail(SlugMissingMessage);
      }
      var db := GetDB(open);
      if db == OpenFailed {
        return Fail(OpenFailedMessage);
      }
      if tx.Fail? {
        return tx;
      }
      records := records[cleanItem[SlugField].text := cleanItem];
      r := Pass;
    }

    /** `removeFromList`: delete that key only. */
    method RemoveFromList(slug: string, open: OpenOutcome, tx: Outcome<string>) returns (r: Outcome<string>)
      requires Valid()
      modifies this
      ensures Valid()
      ensures dbPromise == Some(if old(dbPromise).Some? then old(dbPromise).value else open)
      ensures dbPromise == Some(OpenFailed) ==> r == Fail(OpenFailedMessage) && records == old(records)
      ensures dbPromise == Some(Opened) && tx.Fail? ==> r == tx && records == old(records)
      ensures dbPromise == Some(Opened) && tx.Pass? ==> r == Pass && records == old(records) - {slug}
    {
      var db := GetDB(open);
      if db == OpenFailed {
        return Fail(OpenFailedMessage);
      }
      if tx.Fail? {
        return tx;
      }
      records := records - {slug};
      r := Pass;
    }

    /** `getItem`: the record under that slug, or `undefined`. */
    method GetItem(slug: string, open: OpenOutcome, tx: Outcome<string>) returns (r: Fetched<Option<JsObject>>)
      requires Valid()
      modifies this
      ensures Valid() && records == old(records)
      ensures dbPromise == Some(if old(dbPromise).Some? then old(dbPromise).value else open)
      ensures dbPromise == Some(OpenFailed) ==> r == Failed(OpenFailedMessage)
      ensures dbPromise == Some(Opened) && tx.Fail? ==> r == Failed(tx.error)
      ensures dbPromise == Some(Opened) && tx.Pass? ==>
        r == Loaded(if slug in records then Some(records[slug]) else None)
    {
      var db := GetDB(open);
      if db == OpenFailed {
        return Failed(OpenFailedMessage);
      }
      if tx.Fail? {
        return Failed(tx.error);
      }
      r := Loaded(if slug in records then Some(records[slug]) else None);
    }

    /** `getAll`: every record once, in some order. */
    method GetAll(open: OpenOutcome, tx: Outcome<string>) returns (r: Fetched<seq<JsObject>>)
      requires Valid()
      modifies this
      ensures Valid() && records == old(records)
      ensures dbPromise == Some(if old(dbPromise).Some? then old(dbPromise).value else open)
      ensures dbPromise == Some(OpenFailed) ==> r == Failed(OpenFailedMessage)
      ensures dbPromise == Some(Opened) && tx.Fail? ==> r == Failed(tx.error)
      ensures dbPromise == Some(Opened) && tx.Pass? ==> r.Loaded? && IsListing(r.value, records)
    {
      var db := GetDB(open);
      if db == OpenFailed {
        return Failed(OpenFailedMessage);
      }
      if tx.Fail? {
        return Failed(tx.error);
      }
      var all := Listing(records);
      r := Loaded(all);
    }

    /** The records listed one by one. */
    method Listing(store: map<string, JsObject>) returns (all: seq<JsObject>)
      ensures IsListing(all, store)
    {
      all := [];
      var keys: seq<string> := [];
      var remaining := store.Keys;
      while remaining != {}
        invariant remaining <= store.Keys
        invariant |keys| == |all| && (forall i :: 0 <= i < |keys| ==> keys[i] in store && all[i] == store[keys[i]])
        invariant forall i, j :: 0 <= i < j < |keys| ==> keys[i] != keys[j]
        invariant forall k :: k in store ==> (k in remaining <==> k !in keys)
        decreases |remaining|
      {
        var k :| k in remaining;
        all := all + [store[k]];
        keys := keys + [k];
        remaining := remaining - {k};
      }
      assert IsListing(all, store) by {
        assert forall k :: k in store ==> k in keys;
        ListingWitness(all, store, keys);
      }
    }
  }

  /** `all` lists the store's records: one entry per key, each the record under its key. */
  ghost predicate IsListing(all: seq<JsObject>, store: map<string, JsObject>)
  {
    exists keys: seq<string> ::
      |keys| == |all| &&
      (forall i :: 0 <= i < |keys| ==> keys[i] in store && all[i] == store[keys[i]]) &&
      (forall i, j :: 0 <= i < j < |keys| ==> keys[i] != keys[j]) &&
      (forall k :: k in store ==> k in keys)
  }

  lemma ListingWitness(all: seq<JsObject>, store: map<string, JsObject>, keys: seq<string>)
    requires |keys| == |all|
    requires forall i :: 0 <= i < |keys| ==> keys[i] in store && all[i] == store[keys[i]]
    requires forall i, j :: 0 <= i < j < |keys| ==> keys[i] != keys[j]
    requires forall k :: k in store ==> k in keys
    ensures IsListing(all, store)
  {
  }
}
