/**
 * The discover page (client components/discover/discover.ts): the filter object sent to
 * the discover endpoint, built from the page, the sort order and the chosen genre, year
 * bucket and minimum rating; and the page stepping. The request itself is not modelled:
 * the methods that start one return the filter object it would carry.
 */
module Discover {
  import opened Js
  import opened PageNav
  import opened TmdbService

  /** An object's entries in the order they were set. */
  type Entries = seq<(string, ParamValue)>

  const ReleaseYear := "primary_release_year"
  const ReleaseFrom := "primary_release_date.gte"
  const ReleaseTo := "primary_release_date.lte"
  const MinVote := "vote_average.gte"

  /** The value of a key among an object's entries. */
  function Lookup(entries: Entries, key: string): (v: Option<ParamValue>)
    ensures v.None? <==> forall k :: 0 <= k < |entries| ==> entries[k].0 != key
    ensures v.Some? ==> exists k :: 0 <= k < |entries| && entries[k] == (key, v.value)
  {
    if entries == [] then None
    else if entries[0].0 == key then Some(entries[0].1)
    else
      var r := Lookup(entries[1..], key);
      assert forall k :: 0 <= k < |entries[1..]| ==> entries[1..][k] == entries[k + 1];
      r
  }

  /** The entries a year choice adds: a year after 2015 is matched exactly; 2015, 2010 and
    * 2000 stand for the spans 2015-2019, 2010-2014 and 2000-2009; any other year adds
    * nothing. */
  function YearSpan(y: int): (e: Entries)
    ensures y > 2015 <==> e == [(ReleaseYear, Num(y))]
    ensures y in {2015, 2010, 2000} <==> |e| == 2
    ensures |e| == 2 ==> e[0].0 == ReleaseFrom && e[1].0 == ReleaseTo
    ensures y == 2015 ==> e == [(ReleaseFrom, Str("2015-01-01")), (ReleaseTo, Str("2019-12-31"))]
    ensures y == 2010 ==> e == [(ReleaseFrom, Str("2010-01-01")), (ReleaseTo, Str("2014-12-31"))]
    ensures y == 2000 ==> e == [(ReleaseFrom, Str("2000-01-01")), (ReleaseTo, Str("2009-12-31"))]
    ensures e == [] <==> y <= 2015 && y !in {2015, 2010, 2000}
  {
    if y > 2015 then [(ReleaseYear, Num(y))]
    else if y == 2015 then [(ReleaseFrom, Str("2015-01-01")), (ReleaseTo, Str("2019-12-31"))]
    else if y == 2010 then [(ReleaseFrom, Str("2010-01-01")), (ReleaseTo, Str("2014-12-31"))]
    else if y == 2000 then [(ReleaseFrom, Str("2000-01-01")), (ReleaseTo, Str("2009-12-31"))]
    else []
  }

  /** The year entries of the chosen year; an empty choice, or one that is not a number,
    * adds nothing. */
  function YearEntries(selectedYear: string): (e: Entries)
    ensures selectedYear == "" || ParseInt(selectedYear).None? ==> e == []
    ensures selectedYear != "" && ParseInt(selectedYear).Some? ==> e == YearSpan(ParseInt(selectedYear).value)
  {
    if selectedYear == "" then []
    else match ParseInt(selectedYear)
      case None => []
      case Some(y) => YearSpan(y)
  }

  /** A year choice filters either by one exact year or by a span with both ends, never
    * by a mix of the two. */
  lemma YearFiltersExclusive(selectedYear: string)
    ensures var e := YearEntries(selectedYear);
            (Lookup(e, ReleaseYear).Some? ==> Lookup(e, ReleaseFrom).None? && Lookup(e, ReleaseTo).None?)
            && (Lookup(e, ReleaseFrom).Some? <==> Lookup(e, ReleaseTo).Some?)
  {
    if selectedYear != "" {
      match ParseInt(selectedYear)
      case None =>
      case Some(y) => YearSpanExclusive(y);
    }
  }

  lemma YearSpanExclusive(y: int)
    ensures var e := YearSpan(y);
            (Lookup(e, ReleaseYear).Some? ==> Lookup(e, ReleaseFrom).None? && Lookup(e, ReleaseTo).None?)
            && (Lookup(e, ReleaseFrom).Some? <==> Lookup(e, ReleaseTo).Some?)
  {
    KeyNamesDiffer();
    var e := YearSpan(y);
    if |e| == 2 {
      assert Lookup(e, ReleaseFrom).Some? && Lookup(e, ReleaseTo).Some?;
    }
  }

  /** The release-date keys are different strings. */
  lemma KeyNamesDiffer()
    ensures ReleaseYear != ReleaseFrom && ReleaseYear != ReleaseTo && ReleaseFrom != ReleaseTo
  {
    assert ReleaseYear[16] == 'y' && ReleaseFrom[16] == 'd' && ReleaseTo[16] == 'd';
    assert ReleaseFrom[21] == 'g' && ReleaseTo[21] == 'l';
  }

  /** The filter object of `loadMovies`: page and sort order always, then the genre, the
    * year entries and the minimum rating when chosen; no key is set twice, and no other
    * key is set. */
  function DiscoverFilter(page: int, sortBy: string, genre: string, year: string, rating: string): (params: Entries)
    ensures DistinctKeys(params)
    ensures |params| >= 2 && params[0] == ("page", Num(page)) && params[1] == ("sort_by", Str(sortBy))
    ensures forall k :: 0 <= k < |params| ==> HeadKey(params[k].0) || YearKey(params[k].0) || params[k].0 == MinVote
  {
    var head := [("page", Num(page)), ("sort_by", Str(sortBy))] + GenreEntries(genre);
    var tail := YearEntries(year) + VoteEntries(rating);
    HeadKeys(page, sortBy, genre);
    TailKeys(year, rating);
    DistinctParts(head, tail);
    PartsKeys(head, tail);
    head + tail
  }

  /** Every key of a head part followed by a tail part is a head, year or rating key. */
  lemma PartsKeys(head: Entries, tail: Entries)
    requires forall k :: 0 <= k < |head| ==> HeadKey(head[k].0)
    requires forall k :: 0 <= k < |tail| ==> YearKey(tail[k].0) || tail[k].0 == MinVote
    ensures forall k :: 0 <= k < |head + tail| ==>
              HeadKey((head + tail)[k].0) || YearKey((head + tail)[k].0) || (head + tail)[k].0 == MinVote
  {
    forall k | 0 <= k < |head + tail|
      ensures HeadKey((head + tail)[k].0) || YearKey((head + tail)[k].0) || (head + tail)[k].0 == MinVote
    {
      if k < |head| {
        assert (head + tail)[k] == head[k];
      } else {
        assert (head + tail)[k] == tail[k - |head|];
      }
    }
  }

  function GenreEntries(genre: string): Entries
  {
    if genre != "" then [("with_genres", Str(genre))] else []
  }

  function VoteEntries(rating: string): Entries
  {
    if rating != "" then [(MinVote, Str(rating))] else []
  }

  predicate HeadKey(key: string)
  {
    key == "page" || key == "sort_by" || key == "with_genres"
  }

  predicate YearKey(key: string)
  {
    key == ReleaseYear || key == ReleaseFrom || key == ReleaseTo
  }

  /** No key of the head of the object is a year or rating key. */
  lemma HeadKeyIsNoTailKey(key: string)
    requires HeadKey(key)
    ensures !YearKey(key) && key != MinVote
  {
    assert key[0] in {'p', 's', 'w'};
    assert ReleaseYear[1] == 'r' && ReleaseFrom[1] == 'r' && ReleaseTo[1] == 'r' && MinVote[0] == 'v';
    assert "page"[1] == 'a';
  }

  lemma HeadKeys(page: int, sortBy: string, genre: string)
    ensures var head := [("page", Num(page)), ("sort_by", Str(sortBy))] + GenreEntries(genre);
            DistinctKeys(head) && forall k :: 0 <= k < |head| ==> HeadKey(head[k].0)
  {
    assert "page"[0] == 'p' && "sort_by"[0] == 's' && "with_genres"[0] == 'w';
  }

  lemma TailKeys(year: string, rating: string)
    ensures var tail := YearEntries(year) + VoteEntries(rating);
            DistinctKeys(tail) && forall k :: 0 <= k < |tail| ==> YearKey(tail[k].0) || tail[k].0 == MinVote
  {
    YearEntriesKeys(year);
    YearThenVoteKeys(YearEntries(year), rating);
  }

  /** Year entries followed by the rating entry keep their keys distinct. */
  lemma YearThenVoteKeys(y: Entries, rating: string)
    requires DistinctKeys(y) && forall k :: 0 <= k < |y| ==> YearKey(y[k].0)
    ensures var tail := y + VoteEntries(rating);
            DistinctKeys(tail) && forall k :: 0 <= k < |tail| ==> YearKey(tail[k].0) || tail[k].0 == MinVote
  {
    var v := VoteEntries(rating);
    var tail := y + v;
    assert !YearKey(MinVote) by {
      assert MinVote[0] == 'v' && ReleaseYear[0] == 'p' && ReleaseFrom[0] == 'p' && ReleaseTo[0] == 'p';
    }
    assert |v| <= 1 && forall k :: 0 <= k < |v| ==> v[k].0 == MinVote;
    forall k | 0 <= k < |tail|
      ensures YearKey(tail[k].0) || tail[k].0 == MinVote
    {
      if k < |y| {
        assert tail[k] == y[k];
      } else {
        assert tail[k] == v[k - |y|];
      }
    }
    forall i, j | 0 <= i < j < |tail|
      ensures tail[i].0 != tail[j].0
    {
      assert i < |y| && tail[i] == y[i];
      if j < |y| {
        assert tail[j] == y[j];
      } else {
        assert tail[j] == v[j - |y|];
      }
    }
  }

  lemma YearEntriesKeys(year: string)
    ensures DistinctKeys(YearEntries(year)) && forall k :: 0 <= k < |YearEntries(year)| ==> YearKey(YearEntries(year)[k].0)
  {
    if year != "" {
      match ParseInt(year)
      case None =>
      case Some(y) => YearSpanKeys(y);
    }
  }

  lemma YearSpanKeys(y: int)
    ensures DistinctKeys(YearSpan(y)) && forall k :: 0 <= k < |YearSpan(y)| ==> YearKey(YearSpan(y)[k].0)
  {
    KeyNamesDiffer();
  }

  /** Entry lists with distinct keys, one of head keys and one of tail keys, concatenate
    * to one with distinct keys. */
  lemma DistinctParts(head: Entries, tail: Entries)
    requires DistinctKeys(head) && forall k :: 0 <= k < |head| ==> HeadKey(head[k].0)
    requires DistinctKeys(tail) && forall k :: 0 <= k < |tail| ==> YearKey(tail[k].0) || tail[k].0 == MinVote
    ensures DistinctKeys(head + tail)
  {
    forall i, j | 0 <= i < |head| && 0 <= j < |tail|
      ensures head[i].0 != tail[j].0
    {
      HeadKeyIsNoTailKey(head[i].0);
    }
  }

  /** The genre, when chosen, is the object's `with_genres`; otherwise the key is unset. */
  lemma GenreLookup(page: int, sortBy: string, genre: string, year: string, rating: string)
    ensures Lookup(DiscoverFilter(page, sortBy, genre, year, rating), "with_genres")
            == if genre != "" then Some(Str(genre)) else None
  {
    var base := [("page", Num(page)), ("sort_by", Str(sortBy))];
    var tail := YearEntries(year) + VoteEntries(rating);
    assert DiscoverFilter(page, sortBy, genre, year, rating) == base + (GenreEntries(genre) + tail);
    assert "page"[0] == 'p' && "sort_by"[0] == 's' && "with_genres"[0] == 'w';
    LookupAppend(base, GenreEntries(genre) + tail, "with_genres");
    LookupAppend(GenreEntries(genre), tail, "with_genres");
    TailKeys(year, rating);
    if Lookup(tail, "with_genres").Some? {
      HeadKeyIsNoTailKey("with_genres");
    }
  }

  /** The minimum rating, when chosen, is the object's `vote_average.gte`; otherwise the
    * key is unset. */
  lemma VoteLookup(page: int, sortBy: string, genre: string, year: string, rating: string)
    ensures Lookup(DiscoverFilter(page, sortBy, genre, year, rating), MinVote)
            == if rating != "" then Some(Str(rating)) else None
  {
    var head := [("page", Num(page)), ("sort_by", Str(sortBy))] + GenreEntries(genre);
    var y := YearEntries(year);
    assert DiscoverFilter(page, sortBy, genre, year, rating) == (head + y) + VoteEntries(rating);
    LookupAppend(head + y, VoteEntries(rating), MinVote);
    LookupAppend(head, y, MinVote);
    HeadKeys(page, sortBy, genre);
    YearEntriesKeys(year);
    assert MinVote[0] == 'v' && ReleaseYear[0] == 'p' && ReleaseFrom[0] == 'p' && ReleaseTo[0] == 'p';
    assert MinVote[0] == 'v' && "page"[0] == 'p' && "sort_by"[0] == 's' && "with_genres"[0] == 'w';
  }

  /** The release-date keys of the object are those of the year choice. */
  lemma YearLookup(page: int, sortBy: string, genre: string, year: string, rating: string, key: string)
    requires YearKey(key)
    ensures Lookup(DiscoverFilter(page, sortBy, genre, year, rating), key) == Lookup(YearEntries(year), key)
  {
    var head := [("page", Num(page)), ("sort_by", Str(sortBy))] + GenreEntries(genre);
    var y := YearEntries(year);
    assert DiscoverFilter(page, sortBy, genre, year, rating) == head + (y + VoteEntries(rating));
    LookupAppend(head, y + VoteEntries(rating), key);
    LookupAppend(y, VoteEntries(rating), key);
    HeadKeys(page, sortBy, genre);
    if Lookup(head, key).Some? {
      var k :| 0 <= k < |head| && head[k].0 == key;
      HeadKeyIsNoTailKey(key);
    }
    assert MinVote[0] == 'v' && ReleaseYear[0] == 'p' && ReleaseFrom[0] == 'p' && ReleaseTo[0] == 'p';
  }

  /** Looking a key up in two concatenated entry lists. */
  lemma {:induction false} LookupAppend(a: Entries, b: Entries, key: string)
    ensures Lookup(a + b, key) == if Lookup(a, key).Some? then Lookup(a, key) else Lookup(b, key)
  {
    if a != [] {
      assert (a + b)[1..] == a[1..] + b;
      LookupAppend(a[1..], b, key);
    } else {
      assert a + b == b;
    }
  }

  class DiscoverPage {
    var movies: seq<Movie>
    var isLoading: bool
    var currentPage: int
    var totalPages: int
    var selectedGenre: string
    var selectedYear: string
    var selectedRating: string
    var sortBy: string

    constructor ()
      ensures movies == [] && !isLoading && currentPage == 1 && totalPages == 1
      ensures selectedGenre == "" && selectedYear == "" && selectedRating == "" && sortBy == "popularity.desc"
    {
      movies, isLoading := [], false;
      currentPage, totalPages := 1, 1;
      selectedGenre, selectedYear, selectedRating := "", "", "";
      sortBy := "popularity.desc";
    }

    /** The filter object for the page being shown. */
    function Filter(): Entries
      reads this
    {
      DiscoverFilter(currentPage, sortBy, selectedGenre, selectedYear, selectedRating)
    }

    /** `loadMovies`: the request for the current page with the chosen filters. */
    method LoadMovies() returns (request: Entries)
      modifies this
      ensures isLoading && request == Filter()
      ensures currentPage == old(currentPage) && totalPages == old(totalPages) && movies == old(movies)
      ensures selectedGenre == old(selectedGenre) && selectedYear == old(selectedYear)
              && selectedRating == old(selectedRating) && sortBy == old(sortBy)
    {
      isLoading := true;
      request := Filter();
    }

    /** The answer to `loadMovies`: the movies and page count, or nothing new on failure. */
    method OnMovies(answer: Option<(seq<Movie>, int)>)
      modifies this
      ensures !isLoading
      ensures answer.Some? ==> movies == answer.value.0 && totalPages == answer.value.1
      ensures answer.None? ==> movies == old(movies) && totalPages == old(totalPages)
      ensures currentPage == old(currentPage)
      ensures selectedGenre == old(selectedGenre) && selectedYear == old(selectedYear)
              && selectedRating == old(selectedRating) && sortBy == old(sortBy)
    {
      if answer.Some? {
        movies := answer.value.0;
        totalPages := answer.value.1;
      }
      isLoading := false;
    }

    /** `applyFilters`: back to page 1, then load. */
    method ApplyFilters() returns (request: Entries)
      modifies this
      ensures currentPage == 1 && isLoading
      ensures request == DiscoverFilter(1, sortBy, selectedGenre, selectedYear, selectedRating)
      ensures totalPages == old(totalPages) && movies == old(movies)
      ensures selectedGenre == old(selectedGenre) && selectedYear == old(selectedYear)
              && selectedRating == old(selectedRating) && sortBy == old(sortBy)
    {
      currentPage := 1;
      request := LoadMovies();
    }

    /** `nextPage`: on to the next page and load it, unless this is the last. */
    method NextPage() returns (request: Option<Entries>)
      modifies this
      ensures currentPage == Next(old(currentPage), old(totalPages)) && totalPages == old(totalPages)
      ensures movies == old(movies) && selectedGenre == old(selectedGenre) && selectedYear == old(selectedYear)
              && selectedRating == old(selectedRating) && sortBy == old(sortBy)
      ensures isLoading == (request.Some? || old(isLoading))
      ensures request.Some? <==> old(currentPage) < old(totalPages)
      ensures request.Some? ==> request.value == Filter()
    {
      request := None;
      if currentPage < totalPages {
        currentPage := currentPage + 1;
        var r := LoadMovies();
        request := Some(r);
      }
    }

    /** `previousPage`: back to the page before and load it, unless this is the first. */
    method PreviousPage() returns (request: Option<Entries>)
      modifies this
      ensures currentPage == Previous(old(currentPage)) && totalPages == old(totalPages)
      ensures movies == old(movies) && selectedGenre == old(selectedGenre) && selectedYear == old(selectedYear)
              && selectedRating == old(selectedRating) && sortBy == old(sortBy)
      ensures isLoading == (request.Some? || old(isLoading))
      ensures request.Some? <==> old(currentPage) > 1
      ensures request.Some? ==> request.value == Filter()
    {
      request := None;
      if currentPage > 1 {
        currentPage := currentPage - 1;
        var r := LoadMovies();
        request := Some(r);
      }
    }
  }
}
