/**
 * The lists page (client components/lists/lists.ts): the current page of the user's lists
 * split into the watchlist's movie count and the custom lists, the new-list form with its
 * guard and reset, and the page stepping. Requests are not modelled: a method that starts
 * one returns what it would send, and a separate method takes the answer.
 */
module ListsPage {
  import opened Js
  import opened Query
  import opened PageNav
  import opened ListModel
  import opened ListController
  import ToastService

  const ListNameRequired := "List name is required"
  const LoadFailed := "Failed to load lists. Please try again."
  const CreateFailed := "Failed to create list. Please try again."

  /** Every list the page shows as a custom list: one not named "Watchlist". */
  predicate CustomList(l: ListDoc)
  {
    l.name != WatchlistName
  }

  /** The page's lists split in two: the movie count of the first watchlist on the page
    * (0 without one) and the other lists in their order. Every list is in exactly one of
    * the two parts. */
  function Partition(all: seq<ListDoc>): (p: (nat, seq<ListDoc>))
    ensures (forall k :: 0 <= k < |all| ==> !IsWatchlist(all[k])) ==> p.0 == 0
    ensures forall k :: 0 <= k < |all| && IsWatchlist(all[k]) && (forall m :: 0 <= m < k ==> !IsWatchlist(all[m]))
              ==> p.0 == |all[k].movies|
    ensures forall k :: 0 <= k < |p.1| ==> !IsWatchlist(p.1[k]) && p.1[k] in all
    ensures forall k :: 0 <= k < |all| && !IsWatchlist(all[k]) ==> all[k] in p.1
    ensures |p.1| + |Filter(all, IsWatchlist)| == |all|
    ensures p.1 == Filter(all, CustomList)
  {
    var count := match FindIndex(all, IsWatchlist)
      case None => 0
      case Some(i) => |all[i].movies|;
    var custom := Filter(all, CustomList);
    FilterSubMultiset(all, CustomList);
    FilterComplement(all, CustomList, IsWatchlist);
    (count, custom)
  }

  /** The watchlist never shows among the custom lists, and dropping it keeps every other
    * list in its order: on a page without a watchlist the custom lists are the page. */
  lemma NoWatchlistKeepsAll(all: seq<ListDoc>)
    requires forall k :: 0 <= k < |all| ==> !IsWatchlist(all[k])
    ensures Partition(all) == (0, all)
  {
    FilterKeepsAll(all, CustomList);
  }

  /** What `nextPage` does: step, stay, or fail on a page that has not loaded yet. */
  datatype Step = TypeError | Stay | Load(page: int)

  class Lists {
    var lists: seq<ListDoc>
    var isLoading: bool
    var isLoadingCreate: bool
    var errorMessage: string
    var currentPage: int
    var paginationData: Option<Pagination>
    var watchlistCount: nat
    var newListName: string
    var newListDescription: string
    var newListIsPublic: bool

    constructor ()
      ensures lists == [] && !isLoading && !isLoadingCreate && errorMessage == "" && currentPage == 1
      ensures paginationData == None && watchlistCount == 0
      ensures newListName == "" && newListDescription == "" && !newListIsPublic
    {
      lists, isLoading, isLoadingCreate, errorMessage := [], false, false, "";
      currentPage, paginationData, watchlistCount := 1, None, 0;
      newListName, newListDescription, newListIsPublic := "", "", false;
    }

    /** `loadLists`: the page it asks for. */
    method LoadLists() returns (page: int)
      modifies this
      ensures isLoading && errorMessage == "" && page == currentPage
      ensures currentPage == old(currentPage) && lists == old(lists) && paginationData == old(paginationData)
      ensures watchlistCount == old(watchlistCount) && isLoadingCreate == old(isLoadingCreate)
      ensures newListName == old(newListName) && newListDescription == old(newListDescription)
              && newListIsPublic == old(newListIsPublic)
    {
      isLoading := true;
      errorMessage := "";
      page := currentPage;
    }

    /** The answer to `loadLists`: the partitioned page and its pagination, or the error. */
    method OnListsLoaded(answer: Option<Page<ListDoc>>)
      modifies this
      ensures !isLoading
      ensures answer.Some? ==> (watchlistCount, lists) == Partition(answer.value.data)
                               && paginationData == Some(answer.value.pagination) && errorMessage == old(errorMessage)
      ensures answer.None? ==> errorMessage == LoadFailed && lists == old(lists)
                               && watchlistCount == old(watchlistCount) && paginationData == old(paginationData)
      ensures currentPage == old(currentPage) && isLoadingCreate == old(isLoadingCreate)
      ensures newListName == old(newListName) && newListDescription == old(newListDescription)
              && newListIsPublic == old(newListIsPublic)
    {
      if answer.Some? {
        var p := Partition(answer.value.data);
        watchlistCount := p.0;
        lists := p.1;
        paginationData := Some(answer.value.pagination);
      } else {
        errorMessage := LoadFailed;
      }
      isLoading := false;
    }

    /** `createNewList`: a name of white space only is refused with an error and nothing is
      * sent; otherwise the form's fields are sent as they are. */
    method CreateNewList() returns (request: Option<ListBody>)
      modifies this
      ensures request.None? <==> Blank(newListName)
      ensures request.None? ==> errorMessage == ListNameRequired && isLoadingCreate == old(isLoadingCreate)
      ensures request.Some? ==> errorMessage == "" && isLoadingCreate
                                && request.value == ListBody(Some(newListName), Some(newListDescription), Some(newListIsPublic))
      ensures newListName == old(newListName) && newListDescription == old(newListDescription)
              && newListIsPublic == old(newListIsPublic)
      ensures lists == old(lists) && currentPage == old(currentPage) && isLoading == old(isLoading)
              && paginationData == old(paginationData) && watchlistCount == old(watchlistCount)
    {
      var blank := Trim(newListName) == "";
      TrimEmptyIffBlank(newListName);
      if blank {
        errorMessage := ListNameRequired;
        request := None;
      } else {
        isLoadingCreate := true;
        errorMessage := "";
        request := Some(ListBody(Some(newListName), Some(newListDescription), Some(newListIsPublic)));
      }
    }

    /** The success answer to `createNewList`: a success toast names the list, the form is
      * cleared and the first page is loaded again. */
    method OnCreated() returns (toast: ToastService.Notice, page: int)
      modifies this
      ensures toast == ToastService.Notice(ToastService.Success, "List \"" + old(newListName) + "\" created successfully!")
      ensures newListName == "" && newListDescription == "" && !newListIsPublic
      ensures !isLoadingCreate && currentPage == 1 && page == 1
      ensures isLoading && errorMessage == ""
      ensures lists == old(lists) && paginationData == old(paginationData) && watchlistCount == old(watchlistCount)
    {
      toast := ToastService.Notice(ToastService.Success, "List \"" + newListName + "\" created successfully!");
      newListName := "";
      newListDescription := "";
      newListIsPublic := false;
      isLoadingCreate := false;
      currentPage := 1;
      page := LoadLists();
    }

    /** The error answer to `createNewList`: the server's message, or a default one, is
      * shown on the page and as an error toast; the form keeps what was typed. */
    method OnCreateFailed(message: Option<string>) returns (toast: ToastService.Notice)
      modifies this
      ensures errorMessage == if TruthyStr(message) then message.value else CreateFailed
      ensures toast == ToastService.Notice(ToastService.Error, errorMessage)
      ensures !isLoadingCreate
      ensures newListName == old(newListName) && newListDescription == old(newListDescription)
              && newListIsPublic == old(newListIsPublic)
      ensures lists == old(lists) && currentPage == old(currentPage) && isLoading == old(isLoading)
              && paginationData == old(paginationData) && watchlistCount == old(watchlistCount)
    {
      errorMessage := OrStr(message, CreateFailed);
      toast := ToastService.Notice(ToastService.Error, errorMessage);
      isLoadingCreate := false;
    }

    /** `nextPage`: reading the page count of a page that has not loaded fails; otherwise
      * it moves on and loads only while below the last page. */
    method NextPage() returns (step: Step)
      modifies this
      ensures paginationData == old(paginationData) && lists == old(lists)
      ensures old(paginationData).None? ==> step == TypeError && currentPage == old(currentPage)
      ensures old(paginationData).Some? ==>
                currentPage == Next(old(currentPage), old(paginationData).value.pages)
                && (step == if old(currentPage) < old(paginationData).value.pages then Load(currentPage) else Stay)
      ensures old(paginationData).Some? && 1 <= old(currentPage) <= old(paginationData).value.pages
              ==> 1 <= currentPage <= paginationData.value.pages
      ensures isLoading == (step.Load? || old(isLoading)) && (step.Load? ==> errorMessage == "")
      ensures !step.Load? ==> errorMessage == old(errorMessage)
      ensures watchlistCount == old(watchlistCount) && isLoadingCreate == old(isLoadingCreate)
      ensures newListName == old(newListName) && newListDescription == old(newListDescription)
              && newListIsPublic == old(newListIsPublic)
    {
      if paginationData.None? {
        return TypeError;
      }
      step := Stay;
      if currentPage < paginationData.value.pages {
        currentPage := currentPage + 1;
        var page := LoadLists();
        step := Load(page);
      }
    }

    /** `previousPage`: moves back and loads only while above the first page. */
    method PreviousPage() returns (step: Step)
      modifies this
      ensures paginationData == old(paginationData) && lists == old(lists)
      ensures currentPage == Previous(old(currentPage))
      ensures step == if old(currentPage) > 1 then Load(currentPage) else Stay
      ensures paginationData.Some? && 1 <= old(currentPage) <= paginationData.value.pages
              ==> 1 <= currentPage <= paginationData.value.pages
      ensures isLoading == (step.Load? || old(isLoading)) && (step.Load? ==> errorMessage == "")
      ensures !step.Load? ==> errorMessage == old(errorMessage)
      ensures watchlistCount == old(watchlistCount) && isLoadingCreate == old(isLoadingCreate)
      ensures newListName == old(newListName) && newListDescription == old(newListDescription)
              && newListIsPublic == old(newListIsPublic)
    {
      step := Stay;
      if currentPage > 1 {
        currentPage := currentPage - 1;
        var page := LoadLists();
        step := Load(page);
      }
    }
  }
}
