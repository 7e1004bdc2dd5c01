/**
 * The home page (client components/home/home.ts): three paged movie tabs (trending,
 * search, discover) and a feed tab that grows as it scrolls; the page-number buttons;
 * the trailers of the feed; and the set of movies known to be on the user's watchlist.
 * Requests to the servers are not modelled: each method that starts one returns what it
 * would ask for, and each answer arrives through a method of its own.
 */
module Home {
  import opened Js
  import opened Query
  import opened PageNav
  import opened TmdbService
  import opened MovieDetails
  import opened ListModel
  import ToastService

  datatype Tab = Trending | SearchTab | DiscoverTab | Feed

  /** Which tab is active, the search text, and the page numbers and page counts of the
    * three paged tabs. */
  datatype Paging = Paging(activeTab: Tab, searchQuery: string, trending: (int, int), search: (int, int),
                           discover: (int, int))

  /** The movies of the three paged tabs. */
  datatype Grids = Grids(trending: seq<Movie>, search: seq<Movie>, discover: seq<Movie>)

  /** The feed tab: its movies, its page, whether a page is on its way, its trailers. */
  datatype FeedState = FeedState(movies: seq<Movie>, page: int, loadingMore: bool, videos: map<int, Option<string>>)

  const MaxButtons := 5
  const OriginalImageBase := "https://image.tmdb.org/t/p/original"
  const HomeBackdropPlaceholder := "https://via.placeholder.com/1920x1080?text=No+Image"
  const AlreadyInList := "already in this list"
  const AddFailed := "Failed to add to watchlist"

  function Max(a: int, b: int): int
  {
    if a < b then b else a
  }

  /** The consecutive numbers lo..hi. */
  function Range(lo: int, hi: int): (r: seq<int>)
    ensures |r| == if hi < lo then 0 else hi - lo + 1
    ensures forall k :: 0 <= k < |r| ==> r[k] == lo + k
    decreases hi - lo
  {
    if hi < lo then [] else [lo] + Range(lo + 1, hi)
  }

  /** One more number at the top of a range. */
  lemma {:induction false} RangeSnoc(lo: int, hi: int)
    requires lo <= hi + 1
    ensures Range(lo, hi + 1) == Range(lo, hi) + [hi + 1]
    decreases hi - lo
  {
    if lo <= hi {
      RangeSnoc(lo + 1, hi);
    }
  }

  /** What a paging button asks the movie database for: `loadTrendingMovies`,
    * `performSearch` or `loadDiscoverMovies`, with the page they send. */
  datatype PageLoad = TrendingLoad(page: int) | SearchLoad(query: string, page: int) | DiscoverLoad(page: int)

  /** A press of a paging button: "next", "previous", or a page number. */
  datatype Press = NextPress | PreviousPress | GoPress(target: int)

  /** Whether a press takes the branch that steps a tab's page and loads it: "next" below
    * the last page, "previous" above the first, and a page number always. */
  predicate Moves(press: Press, page: int, total: int)
  {
    match press
    case NextPress => page < total
    case PreviousPress => page > 1
    case GoPress(_) => true
  }

  /** The page a tab steps to on a press, when it moves: the stepping of the trending and
    * discover tabs. */
  function Stepped(press: Press, page: int, total: int): (p: int)
    ensures press.NextPress? ==> p == Next(page, total)
    ensures press.PreviousPress? ==> p == Previous(page)
    ensures press.GoPress? ==> p == press.target
  {
    match press
    case NextPress => Next(page, total)
    case PreviousPress => Previous(page)
    case GoPress(target) => target
  }

  /** The search tab on a press, as the code is written: the page is stepped, and then
    * `performSearch` sets it back to 1 and asks for page 1 of the same text. The result is
    * the page afterwards and the request. */
  function SearchPressAsWritten(press: Press, query: string, page: int, total: int): (r: (int, Option<PageLoad>))
    ensures Moves(press, page, total) ==> r == (1, Some(SearchLoad(query, 1)))
    ensures !Moves(press, page, total) ==> r == (page, None)
  {
    if Moves(press, page, total) then (1, Some(SearchLoad(query, 1))) else (page, None)
  }

  /** The search tab on a press, as evidently intended: it steps like the other tabs and
    * asks for the page it steps to. */
  function SearchPressIntended(press: Press, query: string, page: int, total: int): (r: (int, Option<PageLoad>))
    ensures r.1.Some? <==> Moves(press, page, total)
    ensures r.1.Some? ==> r.1.value == SearchLoad(query, r.0)
    ensures !Moves(press, page, total) ==> r.0 == page
    ensures Moves(press, page, total) ==> r.0 == Stepped(press, page, total)
  {
    if Moves(press, page, total) then
      var p := Stepped(press, page, total);
      (p, Some(SearchLoad(query, p)))
    else (page, None)
  }

  /** The search page after a run of presses, as written. */
  function SearchPagesAsWritten(presses: seq<Press>, query: string, page: int, total: int): int
    decreases |presses|
  {
    if presses == [] then page
    else SearchPagesAsWritten(presses[1..], query, SearchPressAsWritten(presses[0], query, page, total).0, total)
  }

  /** The search page after a run of presses, as intended. */
  function SearchPagesIntended(presses: seq<Press>, query: string, page: int, total: int): int
    decreases |presses|
  {
    if presses == [] then page
    else SearchPagesIntended(presses[1..], query, SearchPressIntended(presses[0], query, page, total).0, total)
  }

  /** `n` presses of "next". */
  function NextPresses(n: nat): (presses: seq<Press>)
    ensures |presses| == n
    ensures forall k :: 0 <= k < n ==> presses[k] == NextPress
  {
    if n == 0 then [] else [NextPress] + NextPresses(n - 1)
  }

  /** As written, search results never leave page 1: from page 1, whatever buttons are
    * pressed and however many pages the search has, the search page stays 1. */
  lemma {:induction false} SearchStaysOnFirstPage(presses: seq<Press>, query: string, total: int)
    ensures SearchPagesAsWritten(presses, query, 1, total) == 1
    decreases |presses|
  {
    if presses != [] {
      assert SearchPressAsWritten(presses[0], query, 1, total).0 == 1;
      SearchStaysOnFirstPage(presses[1..], query, total);
    }
  }

  /** The input that shows it: on page 1 of 5 search pages, "next" stays on page 1 and asks
    * for page 1 again, where page 2 was meant; a jump to page 3 also lands on page 1. */
  lemma SearchNextStaysAsWritten(query: string)
    ensures SearchPressAsWritten(NextPress, query, 1, 5) == (1, Some(SearchLoad(query, 1)))
    ensures SearchPressIntended(NextPress, query, 1, 5) == (2, Some(SearchLoad(query, 2)))
    ensures SearchPressAsWritten(GoPress(3), query, 1, 5).0 == 1
    ensures SearchPressIntended(GoPress(3), query, 1, 5).0 == 3
  {
  }

  /** With the intended stepping, pressing "next" repeatedly climbs the search pages one at
    * a time and stops at the last, as on the other tabs. */
  lemma {:induction false} SearchNextPressesReach(query: string, page: int, total: int, steps: nat)
    requires 1 <= page <= total
    ensures SearchPagesIntended(NextPresses(steps), query, page, total)
            == if page + steps <= total then page + steps else total
    decreases steps
  {
    if steps > 0 {
      var presses := NextPresses(steps);
      assert presses[0] == NextPress && presses[1..] == NextPresses(steps - 1);
      var p := SearchPressIntended(NextPress, query, page, total).0;
      assert p == Next(page, total);
      SearchNextPressesReach(query, p, total, steps - 1);
    }
  }

  /** The page-number buttons: from two before the current page (but not below 1) up to
    * four more (but not beyond the last page). */
  function PageWindow(current: int, total: int): seq<int>
  {
    var start := Max(1, current - MaxButtons / 2);
    Range(start, Min(total, start + MaxButtons - 1))
  }

  /** At most five buttons, consecutive, each a page between 1 and the last. */
  lemma PageWindowShape(current: int, total: int)
    ensures |PageWindow(current, total)| <= MaxButtons
    ensures forall k :: 0 <= k < |PageWindow(current, total)| ==> 1 <= PageWindow(current, total)[k] <= total
    ensures forall k :: 0 < k < |PageWindow(current, total)| ==>
              PageWindow(current, total)[k] == PageWindow(current, total)[k - 1] + 1
  {
  }

  /** The current page always has a button while it is a real page. */
  lemma PageWindowHasCurrent(current: int, total: int)
    requires 1 <= current <= total
    ensures current in PageWindow(current, total)
  {
    var w := PageWindow(current, total);
    var start := Max(1, current - MaxButtons / 2);
    assert w[current - start] == current;
  }

  /** On the last page the window does not slide back: only three buttons show. */
  lemma PageWindowAtLastPage(total: int)
    requires total >= MaxButtons
    ensures PageWindow(total, total) == [total - 2, total - 1, total]
  {
  }

  /** `getBackdropUrl`: the original-size backdrop, else the poster, else the placeholder. */
  function HomeBackdropUrl(movie: Movie): (url: string)
    ensures TruthyStr(movie.backdropPath) ==> url == OriginalImageBase + movie.backdropPath.value
    ensures !TruthyStr(movie.backdropPath) && TruthyStr(movie.posterPath) ==> url == OriginalImageBase + movie.posterPath.value
    ensures !TruthyStr(movie.backdropPath) && !TruthyStr(movie.posterPath) ==> url == HomeBackdropPlaceholder
  {
    if TruthyStr(movie.backdropPath) then OriginalImageBase + movie.backdropPath.value
    else if TruthyStr(movie.posterPath) then OriginalImageBase + movie.posterPath.value
    else HomeBackdropPlaceholder
  }

  /** The movie ids of the first list named "Watchlist", if there is one. */
  function WatchlistIds(lists: seq<ListDoc>): (ids: Option<set<int>>)
    ensures ids.None? <==> forall k :: 0 <= k < |lists| ==> !IsWatchlist(lists[k])
    ensures ids.Some? ==> exists k :: 0 <= k < |lists| && IsWatchlist(lists[k])
                                      && (forall m :: 0 <= m < k ==> !IsWatchlist(lists[m]))
                                      && forall id :: id in ids.value <==> HasMovie(lists[k].movies, id)
  {
    match FindIndex(lists, IsWatchlist)
    case None => None
    case Some(i) =>
      var movies := lists[i].movies;
      var ids := set m | m in movies :: m.tmdbId;
      assert forall id :: id in ids <==> HasMovie(movies, id) by {
        forall id | HasMovie(movies, id)
          ensures id in ids
        {
          var k :| 0 <= k < |movies| && movies[k].tmdbId == id;
          assert movies[k] in movies;
        }
      }
      Some(ids)
  }

  /** A movie is in the watchlist's id set exactly when the first list named "Watchlist"
    * holds it. */
  lemma WatchlistIdsIff(lists: seq<ListDoc>, id: int)
    requires WatchlistIds(lists).Some?
    ensures id in WatchlistIds(lists).value <==>
            exists k :: 0 <= k < |lists| && IsWatchlist(lists[k]) && HasMovie(lists[k].movies, id)
                        && forall m :: 0 <= m < k ==> !IsWatchlist(lists[m])
  {
    var ids := WatchlistIds(lists).value;
    var k :| 0 <= k < |lists| && IsWatchlist(lists[k]) && (forall m :: 0 <= m < k ==> !IsWatchlist(lists[m]))
             && forall id :: id in ids <==> HasMovie(lists[k].movies, id);
    if exists k' :: 0 <= k' < |lists| && IsWatchlist(lists[k']) && HasMovie(lists[k'].movies, id)
                    && forall m :: 0 <= m < k' ==> !IsWatchlist(lists[m]) {
      var k' :| 0 <= k' < |lists| && IsWatchlist(lists[k']) && HasMovie(lists[k'].movies, id)
                && forall m :: 0 <= m < k' ==> !IsWatchlist(lists[m]);
      assert k == k';
    }
  }

  class HomePage {
    var activeTab: Tab
    var searchQuery: string
    var currentTrendingPage: int
    var trendingTotalPages: int
    var currentSearchPage: int
    var searchTotalPages: int
    var currentDiscoverPage: int
    var discoverTotalPages: int
    var trendingMovies: seq<Movie>
    var searchResults: seq<Movie>
    var discoverMovies: seq<Movie>
    var feedMovies: seq<Movie>
    var feedPage: int
    var isLoadingMore: bool
    var feedMoviesWithVideos: map<int, Option<string>>
    var moviesInWatchlist: set<int>

    constructor ()
      ensures activeTab == Trending && searchQuery == ""
      ensures currentTrendingPage == 1 && trendingTotalPages == 1 && currentSearchPage == 1
              && searchTotalPages == 1 && currentDiscoverPage == 1 && discoverTotalPages == 1
      ensures trendingMovies == [] && searchResults == [] && discoverMovies == [] && feedMovies == []
      ensures feedPage == 1 && !isLoadingMore && feedMoviesWithVideos == map[] && moviesInWatchlist == {}
    {
      activeTab, searchQuery := Trending, "";
      currentTrendingPage, trendingTotalPages := 1, 1;
      currentSearchPage, searchTotalPages := 1, 1;
      currentDiscoverPage, discoverTotalPages := 1, 1;
      trendingMovies, searchResults, discoverMovies, feedMovies := [], [], [], [];
      feedPage, isLoadingMore := 1, false;
      feedMoviesWithVideos, moviesInWatchlist := map[], {};
    }

    /** The paging fields together. */
    function PagingOf(): Paging
      reads this
    {
      Paging(activeTab, searchQuery, (currentTrendingPage, trendingTotalPages), (currentSearchPage, searchTotalPages),
             (currentDiscoverPage, discoverTotalPages))
    }

    /** The movie fields of the paged tabs together. */
    function GridsOf(): Grids
      reads this
    {
      Grids(trendingMovies, searchResults, discoverMovies)
    }

    /** The feed fields together. */
    function FeedOf(): FeedState
      reads this
    {
      FeedState(feedMovies, feedPage, isLoadingMore, feedMoviesWithVideos)
    }

    /** The `currentPage` getter. */
    function CurrentPage(): int
      reads this
    {
      match activeTab
      case Trending => currentTrendingPage
      case SearchTab => currentSearchPage
      case DiscoverTab => currentDiscoverPage
      case Feed => 1
    }

    /** The `totalPages` getter. */
    function TotalPages(): int
      reads this
    {
      match activeTab
      case Trending => trendingTotalPages
      case SearchTab => searchTotalPages
      case DiscoverTab => discoverTotalPages
      case Feed => 1
    }

    /** The `displayMovies` getter. */
    function DisplayMovies(): seq<Movie>
      reads this
    {
      match activeTab
      case Trending => trendingMovies
      case SearchTab => searchResults
      case DiscoverTab => discoverMovies
      case Feed => []
    }

    /** The `pageNumbers` getter: the buttons of the active tab. */
    method PageNumbers() returns (pages: seq<int>)
      ensures pages == PageWindow(CurrentPage(), TotalPages())
    {
      var start := Max(1, CurrentPage() - MaxButtons / 2);
      var end := Min(TotalPages(), start + MaxButtons - 1);
      pages := [];
      var i := start;
      while i <= end
        invariant start <= i <= Max(start, end + 1)
        invariant pages == Range(start, i - 1)
        decreases end - i
      {
        RangeSnoc(start, i - 1);
        pages := pages + [i];
        i := i + 1;
      }
      if end < start {
        assert Range(start, end) == [] && Range(start, i - 1) == [];
      }
    }

    /** `nextPage`: on the trending and discover tabs the page moves on unless it is the
      * last, and the new page is loaded. On the search tab the page moves on and
      * `performSearch` then sets it back to 1 and searches again for page 1. */
    method NextPage() returns (request: Option<PageLoad>)
      modifies this
      ensures activeTab == old(activeTab) && searchQuery == old(searchQuery)
      ensures activeTab == Trending ==>
                currentTrendingPage == Next(old(currentTrendingPage), trendingTotalPages)
                && request == if Moves(NextPress, old(currentTrendingPage), trendingTotalPages)
                              then Some(TrendingLoad(currentTrendingPage)) else None
      ensures activeTab == DiscoverTab ==>
                currentDiscoverPage == Next(old(currentDiscoverPage), discoverTotalPages)
                && request == if Moves(NextPress, old(currentDiscoverPage), discoverTotalPages)
                              then Some(DiscoverLoad(currentDiscoverPage)) else None
      ensures activeTab == SearchTab ==>
                (currentSearchPage, request) == SearchPressAsWritten(NextPress, searchQuery, old(currentSearchPage), searchTotalPages)
      ensures activeTab == Feed ==> request.None?
      ensures activeTab != Trending ==> currentTrendingPage == old(currentTrendingPage)
      ensures activeTab != SearchTab ==> currentSearchPage == old(currentSearchPage)
      ensures activeTab != DiscoverTab ==> currentDiscoverPage == old(currentDiscoverPage)
      ensures trendingTotalPages == old(trendingTotalPages) && searchTotalPages == old(searchTotalPages)
              && discoverTotalPages == old(discoverTotalPages)
      ensures GridsOf() == old(GridsOf()) && FeedOf() == old(FeedOf()) && moviesInWatchlist == old(moviesInWatchlist)
    {
      request := None;
      if activeTab == Trending && currentTrendingPage < trendingTotalPages {
        currentTrendingPage := currentTrendingPage + 1;
        request := Some(TrendingLoad(currentTrendingPage));
      } else if activeTab == SearchTab && currentSearchPage < searchTotalPages {
        currentSearchPage := currentSearchPage + 1;
        request := PerformSearch();
      } else if activeTab == DiscoverTab && currentDiscoverPage < discoverTotalPages {
        currentDiscoverPage := currentDiscoverPage + 1;
        request := Some(DiscoverLoad(currentDiscoverPage));
      }
    }

    /** `previousPage`: on the trending and discover tabs the page moves back unless it is
      * the first, and the new page is loaded. On the search tab the page moves back and
      * `performSearch` then sets it to 1 and searches again for page 1. */
    method PreviousPage() returns (request: Option<PageLoad>)
      modifies this
      ensures activeTab == old(activeTab) && searchQuery == old(searchQuery)
      ensures activeTab == Trending ==>
                currentTrendingPage == Previous(old(currentTrendingPage))
                && request == if Moves(PreviousPress, old(currentTrendingPage), trendingTotalPages)
                              then Some(TrendingLoad(currentTrendingPage)) else None
      ensures activeTab == DiscoverTab ==>
                currentDiscoverPage == Previous(old(currentDiscoverPage))
                && request == if Moves(PreviousPress, old(currentDiscoverPage), discoverTotalPages)
                              then Some(DiscoverLoad(currentDiscoverPage)) else None
      ensures activeTab == SearchTab ==>
                (currentSearchPage, request) == SearchPressAsWritten(PreviousPress, searchQuery, old(currentSearchPage), searchTotalPages)
      ensures activeTab == Feed ==> request.None?
      ensures activeTab != Trending ==> currentTrendingPage == old(currentTrendingPage)
      ensures activeTab != SearchTab ==> currentSearchPage == old(currentSearchPage)
      ensures activeTab != DiscoverTab ==> currentDiscoverPage == old(currentDiscoverPage)
      ensures trendingTotalPages == old(trendingTotalPages) && searchTotalPages == old(searchTotalPages)
              && discoverTotalPages == old(discoverTotalPages)
      ensures GridsOf() == old(GridsOf()) && FeedOf() == old(FeedOf()) && moviesInWatchlist == old(moviesInWatchlist)
    {
      request := None;
      if activeTab == Trending && currentTrendingPage > 1 {
        currentTrendingPage := currentTrendingPage - 1;
        request := Some(TrendingLoad(currentTrendingPage));
      } else if activeTab == SearchTab && currentSearchPage > 1 {
        currentSearchPage := currentSearchPage - 1;
        request := PerformSearch();
      } else if activeTab == DiscoverTab && currentDiscoverPage > 1 {
        currentDiscoverPage := currentDiscoverPage - 1;
        request := Some(DiscoverLoad(currentDiscoverPage));
      }
    }

    /** `goToPage`: the active tab jumps to the page, with no check against its bounds, and
      * loads it; on the search tab `performSearch` then sets the page to 1 and searches
      * again for page 1. */
    method GoToPage(pageNumber: int) returns (request: Option<PageLoad>)
      modifies this
      ensures activeTab == old(activeTab) && searchQuery == old(searchQuery)
      ensures activeTab == Trending ==> currentTrendingPage == pageNumber && request == Some(TrendingLoad(pageNumber))
      ensures activeTab == DiscoverTab ==> currentDiscoverPage == pageNumber && request == Some(DiscoverLoad(pageNumber))
      ensures activeTab == SearchTab ==>
                (currentSearchPage, request) == SearchPressAsWritten(GoPress(pageNumber), searchQuery, old(currentSearchPage), searchTotalPages)
      ensures activeTab == Feed ==> request.None?
      ensures activeTab != Trending ==> currentTrendingPage == old(currentTrendingPage)
      ensures activeTab != SearchTab ==> currentSearchPage == old(currentSearchPage)
      ensures activeTab != DiscoverTab ==> currentDiscoverPage == old(currentDiscoverPage)
      ensures trendingTotalPages == old(trendingTotalPages) && searchTotalPages == old(searchTotalPages)
              && discoverTotalPages == old(discoverTotalPages)
      ensures GridsOf() == old(GridsOf()) && FeedOf() == old(FeedOf()) && moviesInWatchlist == old(moviesInWatchlist)
    {
      request := None;
      if activeTab == Trending {
        currentTrendingPage := pageNumber;
        request := Some(TrendingLoad(pageNumber));
      } else if activeTab == SearchTab {
        currentSearchPage := pageNumber;
        request := PerformSearch();
      } else if activeTab == DiscoverTab {
        currentDiscoverPage := pageNumber;
        request := Some(DiscoverLoad(pageNumber));
      }
    }

    /** The paging part of `performSearch`: the search page goes back to 1, and page 1 of
      * the current text is asked for. */
    method PerformSearch() returns (request: Option<PageLoad>)
      modifies this
      ensures currentSearchPage == 1 && request == Some(SearchLoad(searchQuery, 1))
      ensures activeTab == old(activeTab) && searchQuery == old(searchQuery)
      ensures currentTrendingPage == old(currentTrendingPage) && currentDiscoverPage == old(currentDiscoverPage)
      ensures trendingTotalPages == old(trendingTotalPages) && searchTotalPages == old(searchTotalPages)
              && discoverTotalPages == old(discoverTotalPages)
      ensures GridsOf() == old(GridsOf()) && FeedOf() == old(FeedOf()) && moviesInWatchlist == old(moviesInWatchlist)
    {
      currentSearchPage := 1;
      request := Some(SearchLoad(searchQuery, 1));
    }

    /** `loadMoreFeedMovies`: nothing while a page is on its way; otherwise the next feed
      * page is asked for. */
    method LoadMoreFeedMovies() returns (request: Option<int>)
      modifies this
      ensures old(isLoadingMore) ==> request.None? && feedPage == old(feedPage) && isLoadingMore
      ensures !old(isLoadingMore) ==> request == Some(old(feedPage) + 1) && feedPage == old(feedPage) + 1
                                      && isLoadingMore
      ensures feedMovies == old(feedMovies) && feedMoviesWithVideos == old(feedMoviesWithVideos)
      ensures PagingOf() == old(PagingOf()) && GridsOf() == old(GridsOf()) && moviesInWatchlist == old(moviesInWatchlist)
    {
      if isLoadingMore {
        return None;
      }
      feedPage := feedPage + 1;
      isLoadingMore := true;
      request := Some(feedPage);
    }

    /** The answer to `loadMoreFeedMovies`: new movies go after the ones shown; a failure
      * takes the feed page back. */
    method OnMoreFeedMovies(answer: Option<seq<Movie>>)
      modifies this
      ensures !isLoadingMore
      ensures answer.Some? ==> feedMovies == old(feedMovies) + answer.value && feedPage == old(feedPage)
      ensures answer.None? ==> feedMovies == old(feedMovies) && feedPage == old(feedPage) - 1
      ensures feedMoviesWithVideos == old(feedMoviesWithVideos)
      ensures PagingOf() == old(PagingOf()) && GridsOf() == old(GridsOf()) && moviesInWatchlist == old(moviesInWatchlist)
    {
      if answer.Some? {
        feedMovies := feedMovies + answer.value;
      } else {
        feedPage := feedPage - 1;
      }
      isLoadingMore := false;
    }

    /** The answer to one movie's video request: its trailer key, or none on failure. */
    method OnVideos(movieId: int, answer: Option<seq<Video>>)
      modifies this
      ensures feedMoviesWithVideos == old(feedMoviesWithVideos)[movieId := if answer.Some? then TrailerKey(answer.value) else None]
      ensures feedMovies == old(feedMovies) && feedPage == old(feedPage) && isLoadingMore == old(isLoadingMore)
      ensures PagingOf() == old(PagingOf()) && GridsOf() == old(GridsOf()) && moviesInWatchlist == old(moviesInWatchlist)
    {
      var key := if answer.Some? then TrailerKey(answer.value) else None;
      feedMoviesWithVideos := feedMoviesWithVideos[movieId := key];
    }

    /** `isInWatchlist`. */
    function IsInWatchlist(movieId: int): bool
      reads this
    {
      movieId in moviesInWatchlist
    }

    /** The answer to `loadWatchlistMovies`: the set becomes the movies of the list named
      * "Watchlist", and stays as it was when there is none. */
    method OnUserLists(lists: seq<ListDoc>)
      modifies this
      ensures WatchlistIds(lists).Some? ==> moviesInWatchlist == WatchlistIds(lists).value
      ensures WatchlistIds(lists).None? ==> moviesInWatchlist == old(moviesInWatchlist)
      ensures WatchlistIds(lists).Some? ==> forall id :: IsInWatchlist(id) <==>
                exists k :: 0 <= k < |lists| && IsWatchlist(lists[k]) && HasMovie(lists[k].movies, id)
                            && forall m :: 0 <= m < k ==> !IsWatchlist(lists[m])
      ensures PagingOf() == old(PagingOf()) && GridsOf() == old(GridsOf()) && FeedOf() == old(FeedOf())
    {
      var ids := WatchlistIds(lists);
      if ids.Some? {
        moviesInWatchlist := ids.value;
        forall id
          ensures IsInWatchlist(id) <==>
                  exists k :: 0 <= k < |lists| && IsWatchlist(lists[k]) && HasMovie(lists[k].movies, id)
                              && forall m :: 0 <= m < k ==> !IsWatchlist(lists[m])
        {
          WatchlistIdsIff(lists, id);
        }
      }
    }

    /** The answer to `addToExistingList`: on success the movie joins the set with a success
      * toast; on failure it joins, with an info toast, only when the message says it is
      * already in the list, and otherwise an error toast is shown. */
    method OnAddToListAnswer(movieId: int, title: string, failure: Option<string>) returns (toast: ToastService.Notice)
      modifies this
      ensures failure.None? ==> toast == ToastService.Notice(ToastService.Success, "\"" + title + "\" added to Watchlist!")
      ensures failure.Some? && Includes(failure.value, AlreadyInList) ==>
                toast == ToastService.Notice(ToastService.Info, "\"" + title + "\" is already in your watchlist")
      ensures failure.Some? && !Includes(failure.value, AlreadyInList) ==> toast == ToastService.Notice(ToastService.Error, AddFailed)
      ensures failure.None? ==> moviesInWatchlist == old(moviesInWatchlist) + {movieId}
      ensures failure.Some? && Includes(failure.value, AlreadyInList) ==> moviesInWatchlist == old(moviesInWatchlist) + {movieId}
      ensures failure.Some? && !Includes(failure.value, AlreadyInList) ==> moviesInWatchlist == old(moviesInWatchlist)
      ensures IsInWatchlist(movieId) <==> failure.None? || Includes(failure.value, AlreadyInList) || old(IsInWatchlist(movieId))
      ensures PagingOf() == old(PagingOf()) && GridsOf() == old(GridsOf()) && FeedOf() == old(FeedOf())
    {
      if failure.None? {
        moviesInWatchlist := moviesInWatchlist + {movieId};
        toast := ToastService.Notice(ToastService.Success, "\"" + title + "\" added to Watchlist!");
      } else if Includes(failure.value, AlreadyInList) {
        moviesInWatchlist := moviesInWatchlist + {movieId};
        toast := ToastService.Notice(ToastService.Info, "\"" + title + "\" is already in your watchlist");
      } else {
        toast := ToastService.Notice(ToastService.Error, AddFailed);
      }
    }
  }

  /** The getters read the page, the page count and the movies of the active tab. */
  lemma GettersFollowActiveTab(home: HomePage)
    ensures home.activeTab == Trending ==>
              home.CurrentPage() == home.currentTrendingPage
              && home.TotalPages() == home.trendingTotalPages && home.DisplayMovies() == home.trendingMovies
    ensures home.activeTab == SearchTab ==>
              home.CurrentPage() == home.currentSearchPage
              && home.TotalPages() == home.searchTotalPages && home.DisplayMovies() == home.searchResults
    ensures home.activeTab == DiscoverTab ==>
              home.CurrentPage() == home.currentDiscoverPage
              && home.TotalPages() == home.discoverTotalPages && home.DisplayMovies() == home.discoverMovies
  {
  }

  /** On the feed tab there are no pages and nothing in the grid. */
  lemma FeedTabHasNoPages(home: HomePage)
    requires home.activeTab == Feed
    ensures home.CurrentPage() == 1 && home.TotalPages() == 1 && home.DisplayMovies() == []
  {
  }
}
