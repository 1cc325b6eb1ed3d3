/**
 * The bottom sheet for putting a title into a category of the personal
 * list: its five options, which of them is highlighted, when the remove
 * action is offered, and the order in which its handlers call out.
 */
module AddToListSheet {
  import opened Wrappers
  import opened Types
  import DetailPage

  /** One button of the sheet. */
  datatype ListOption = ListOption(status: ListStatus, text: string, icon: string)

  /** `LIST_OPTIONS`, in display order. */
  const ListOptions: seq<ListOption> := [
    ListOption(Watching, "Watching", "visibility"),
    ListOption(PlanToWatch, "Plan to Watch", "watch_later"),
    ListOption(Completed, "Completed", "done_all"),
    ListOption(OnHold, "On Hold", "pause_circle"),
    ListOption(Dropped, "Dropped", "delete")
  ]

  /** Some option of the sheet puts a title into category `s`. */
  predicate Offered(s: ListStatus)
  {
    exists i :: 0 <= i < |ListOptions| && ListOptions[i].status == s
  }

  /** Every category has exactly one option. */
  lemma ListOptionsExactlyOnce()
    ensures |ListOptions| == 5
    ensures forall s: ListStatus :: Offered(s)
    ensures forall i, j :: 0 <= i < j < |ListOptions| ==> ListOptions[i].status != ListOptions[j].status
  {
    forall s: ListStatus
      ensures Offered(s)
    {
      match s
      case Watching => assert ListOptions[0].status == s;
      case PlanToWatch => assert ListOptions[1].status == s;
      case Completed => assert ListOptions[2].status == s;
      case OnHold => assert ListOptions[3].status == s;
      case Dropped => assert ListOptions[4].status == s;
    }
  }

  /** The remove action is offered when the title has a category. */
  predicate ShowsRemove(currentStatus: Option<ListStatus>)
  {
    currentStatus.Some?
  }

  /** An option is highlighted when it is the title's current category. */
  predicate Highlighted(currentStatus: Option<ListStatus>, option: ListOption)
  {
    currentStatus == Some(option.status)
  }

  /**
   * Exactly one option is highlighted when the title has a category, and
   * none otherwise; the remove action appears in the first case only.
   */
  lemma HighlightIff(currentStatus: Option<ListStatus>)
    ensures ShowsRemove(currentStatus) <==> exists i :: 0 <= i < |ListOptions| && Highlighted(currentStatus, ListOptions[i])
    ensures forall i, j ::
      (0 <= i < |ListOptions| && 0 <= j < |ListOptions|
       && Highlighted(currentStatus, ListOptions[i]) && Highlighted(currentStatus, ListOptions[j]))
      ==> i == j
  {
    ListOptionsExactlyOnce();
    if currentStatus.Some? {
      assert Offered(currentStatus.value);
      var i :| 0 <= i < |ListOptions| && ListOptions[i].status == currentStatus.value;
      assert Highlighted(currentStatus, ListOptions[i]);
    }
  }

  /**
   * The sheet spells the categories as the detail page's button does,
   * except that it writes `Plan to Watch` where the button reads
   * `Plan To Watch`.
   */
  lemma SheetLabelsVersusButton()
    ensures forall i :: 0 <= i < |ListOptions| ==>
      (ListOptions[i].text == DetailPage.FormatStatusLabel(Some(ListOptions[i].status))
       <==> ListOptions[i].status != PlanToWatch)
  {
    forall i | 0 <= i < |ListOptions|
      ensures ListOptions[i].text == DetailPage.FormatStatusLabel(Some(ListOptions[i].status))
        <==> ListOptions[i].status != PlanToWatch
    {
      DetailPage.StatusLabelText(ListOptions[i].status);
      if ListOptions[i].status == PlanToWatch {
        assert ListOptions[i].text[5] == 't';
      }
    }
  }

  /** A call the sheet's handlers make, in the order they make them. */
  datatype Call =
    | AddToListCall(anime: AnyAnime, status: ListStatus)
    | RemoveFromListCall(slug: string)
    | StatusChangeCall(status: ListStatus)
    | RemoveCall
    | CloseCall

  /** The store is called before any callback, and the sheet closes last, at most once. */
  predicate StoreFirstCloseLast(calls: seq<Call>)
  {
    (forall i :: 0 <= i < |calls| && (calls[i].StatusChangeCall? || calls[i].RemoveCall? || calls[i].CloseCall?) ==>
       i > 0 && (calls[0].AddToListCall? || calls[0].RemoveFromListCall?))
    && (forall i :: 0 <= i < |calls| && calls[i].CloseCall? ==> i == |calls| - 1)
  }

  /**
   * `handleStatusSelect`: without a list context nothing is called;
   * otherwise the store call comes first, and only once it has succeeded
   * are the page told of the new category and the sheet closed.
   */
  method HandleStatusSelect(hasContext: bool, anime: AnyAnime, status: ListStatus, added: Outcome<string>)
    returns (calls: seq<Call>)
    ensures !hasContext ==> calls == []
    ensures hasContext && added.Fail? ==> calls == [AddToListCall(anime, status)]
    ensures hasContext && added.Pass? ==> calls == [AddToListCall(anime, status), StatusChangeCall(status), CloseCall]
    ensures StoreFirstCloseLast(calls)
  {
    calls := [];
    if !hasContext {
      return;
    }
    calls := calls + [AddToListCall(anime, status)];
    if added.Fail? {
      return;
    }
    calls := calls + [StatusChangeCall(status)];
    calls := calls + [CloseCall];
  }

  /**
   * `handleRemove`: without a list context nothing is called; otherwise
   * the store removal by the title's slug comes first, and only once it has
   * succeeded are the page told and the sheet closed.
   */
  method HandleRemove(hasContext: bool, anime: AnyAnime, removed: Outcome<string>)
    returns (calls: seq<Call>)
    ensures !hasContext ==> calls == []
    ensures hasContext && removed.Fail? ==> calls == [RemoveFromListCall(anime.Slug())]
    ensures hasContext && removed.Pass? ==> calls == [RemoveFromListCall(anime.Slug()), RemoveCall, CloseCall]
    ensures StoreFirstCloseLast(calls)
  {
    calls := [];
    if !hasContext {
      return;
    }
    calls := calls + [RemoveFromListCall(anime.Slug())];
    if removed.Fail? {
      return;
    }
    calls := calls + [RemoveCall];
    calls := calls + [CloseCall];
  }
}
