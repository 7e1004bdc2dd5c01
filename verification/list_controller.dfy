/**
 * The custom-list handlers (server/src/controllers/listController.ts) over the list
 * collection. Each handler is a function from the collection and the request to the
 * document it creates, changes, deletes or returns (or the error it throws); the
 * `ListStore` class applies the changing ones to the collection.
 */
module ListController {
  import opened Js
  import opened Query
  import opened ListModel

  /** The fields of a create or update request body. */
  datatype ListBody = ListBody(name: Option<string>, description: Option<string>, isPublic: Option<bool>)

  /** The fields of an add-movie request body. */
  datatype MovieBody = MovieBody(tmdbId: Option<int>, movieTitle: Option<string>, posterPath: Option<string>)

  const PageSize: nat := 10
  const MissingName := "Please provide a list name"
  const UserIdNotFound := "User ID not found"
  const ListNotFound := "List not found"
  const CannotView := "Not authorized to view this list"
  const CannotModify := "Not authorized to modify this list"
  const CannotDelete := "Not authorized to delete this list"
  const MissingMovieFields := "Please provide tmdbId and movieTitle"
  const MovieAlreadyInList := "Movie already in list"
  const ValidationFailed := "List validation failed"
  const DuplicateKey := "E11000 duplicate key error"

  /** `createList`: 400 without a name; otherwise the store builds the document (owner,
    * trimmed name, description defaulting to '', isPublic defaulting to false, no movies)
    * and refuses it without an owner, with a blank name, or with a name the owner already
    * uses, as errors without a status. */
  function CreatedList(lists: seq<ListDoc>, nextId: nat, caller: Option<nat>, body: ListBody): (r: Outcome<ListDoc>)
    ensures !TruthyStr(body.name) ==> r == Throw(Raise(400, MissingName))
    ensures TruthyStr(body.name) ==>
            (r.Ok? <==> caller.Some? && Trim(body.name.value) != ""
                        && !NameTaken(lists, caller.value, Trim(body.name.value), -1))
    ensures TruthyStr(body.name) && r.Throw? ==> r.error.statusCode.None?
    ensures r.Ok? ==> r.value.id == nextId && r.value.owner == caller.value && r.value.name == Trim(body.name.value)
                      && r.value.description == Trim(OrStr(body.description, ""))
                      && r.value.isPublic == (body.isPublic == Some(true)) && r.value.movies == []
    ensures r.Ok? ==> ListValid(r.value)
  {
    if !TruthyStr(body.name) then Throw(Raise(400, MissingName))
    else if caller.None? || Trim(body.name.value) == "" then Throw(StoreError(ValidationFailed))
    else if NameTaken(lists, caller.value, Trim(body.name.value), -1) then Throw(StoreError(DuplicateKey))
    else
      TrimIsTrimmed(body.name.value);
      TrimIsTrimmed(OrStr(body.description, ""));
      Ok(ListDoc(nextId, caller.value, Trim(body.name.value), Trim(OrStr(body.description, "")),
                 body.isPublic == Some(true), []))
  }

  /** The store's own owner filter `{ user: id }`. */
  function OwnedBy(owner: nat): ListDoc -> bool
  {
    (l: ListDoc) => l.owner == owner
  }

  /** `getUserLists`: 400 without a caller; a page that is not a positive number is refused
    * by the store; otherwise at most ten of the caller's lists, newest first, and the
    * pagination over all of them. */
  function GetUserLists(lists: seq<ListDoc>, caller: Option<nat>, pageQuery: Option<string>): (r: Outcome<Page<ListDoc>>)
    ensures caller.None? ==> r == Throw(Raise(400, UserIdNotFound))
    ensures caller.Some? ==> (r.Ok? <==> PageParam(pageQuery).Some? && PageParam(pageQuery).value >= 1)
    ensures caller.Some? && r.Throw? ==> r.error.statusCode.None?
    ensures r.Ok? ==> |r.value.data| <= PageSize
                      && forall k :: 0 <= k < |r.value.data| ==> r.value.data[k] in lists && r.value.data[k].owner == caller.value
    ensures r.Ok? ==> r.value.pagination.page == PageParam(pageQuery).value && r.value.pagination.limit == PageSize
                      && r.value.pagination.total == |Filter(lists, OwnedBy(caller.value))|
                      && r.value.pagination.total <= r.value.pagination.pages * PageSize
                      && (r.value.pagination.pages == 0
                          || (r.value.pagination.pages - 1) * PageSize < r.value.pagination.total)
    ensures r.Ok? ==> var mine := NewestFirst(lists, OwnedBy(caller.value));
                      var p := PageParam(pageQuery).value;
                      r.value.data == Window(mine, (p - 1) * PageSize, PageSize)
                      && r.value.pagination == Pagination(|mine|, p, PageSize, PageCount(|mine|, PageSize))
  {
    var page := PageParam(pageQuery);
    if caller.None? then Throw(Raise(400, UserIdNotFound))
    else
      match Skip(page, PageSize)
      case Throw(e) => Throw(e)
      case Ok(skip) =>
        var mine := NewestFirst(lists, OwnedBy(caller.value));
        NewestFirstWindow(lists, OwnedBy(caller.value), skip, PageSize);
        Ok(Page(Window(mine, skip, PageSize), Pagination(|mine|, page.value, PageSize, PageCount(|mine|, PageSize))))
  }

  /** A page of a well-formed collection is in strictly decreasing creation order. */
  lemma UserListsNewestFirst(lists: seq<ListDoc>, nextId: nat, caller: Option<nat>, pageQuery: Option<string>)
    requires ListsValid(lists, nextId)
    requires GetUserLists(lists, caller, pageQuery).Ok?
    ensures var data := GetUserLists(lists, caller, pageQuery).value.data;
            forall i, j :: 0 <= i < j < |data| ==> data[i].id > data[j].id
  {
    var key := (l: ListDoc) => l.id;
    assert Increasing(lists, key) by {
      assert ListsOrdered(lists);
    }
    NewestFirstSorted(lists, OwnedBy(caller.value), key);
    var p := PageParam(pageQuery).value;
    WindowKeepsDecreasing(NewestFirst(lists, OwnedBy(caller.value)), (p - 1) * PageSize, PageSize, key);
  }

  /** Every list of the caller is on some announced page, reached with that page's number. */
  lemma EveryListOnSomePage(lists: seq<ListDoc>, owner: nat, l: ListDoc)
    requires l in lists && l.owner == owner
    ensures exists p: nat ::
              var r := GetUserLists(lists, Some(owner), Some(IntToString(p)));
              r.Ok? && 1 <= p <= r.value.pagination.pages && l in r.value.data
  {
    var f := Filter(lists, OwnedBy(owner));
    var mine := NewestFirst(lists, OwnedBy(owner));
    var k :| 0 <= k < |lists| && lists[k] == l;
    assert l in f;
    var m :| 0 <= m < |f| && f[m] == l;
    var i := |f| - 1 - m;
    assert mine[i] == l;
    PageOfItem(mine, PageSize, i);
    var p: nat := i / PageSize + 1;
    UserListsPage(lists, owner, p);
    var r := GetUserLists(lists, Some(owner), Some(IntToString(p)));
    assert r.value.data[i % PageSize] == l;
  }

  /** The page asked for by its number: the caller's lists from that page's offset on. */
  lemma UserListsPage(lists: seq<ListDoc>, owner: nat, p: nat)
    requires p >= 1
    ensures var r := GetUserLists(lists, Some(owner), Some(IntToString(p)));
            var mine := NewestFirst(lists, OwnedBy(owner));
            r.Ok? && r.value.data == Window(mine, (p - 1) * PageSize, PageSize)
            && r.value.pagination.pages == PageCount(|mine|, PageSize)
  {
    var q := Some(IntToString(p));
    PageParamOfPage(p);
    assert Skip(PageParam(q), PageSize) == Ok((p - 1) * PageSize);
  }

  /** `getListById`: 404 for an unknown id; a private list is only shown to its owner. */
  function GetListById(lists: seq<ListDoc>, id: nat, caller: Option<nat>): (r: Outcome<ListDoc>)
    ensures FindList(lists, id).None? <==> r == Throw(Raise(404, ListNotFound))
    ensures FindList(lists, id).Some? ==>
            var l := lists[FindList(lists, id).value];
            (r.Ok? <==> l.isPublic || caller == Some(l.owner))
            && (r.Ok? ==> r.value == l)
            && (r.Throw? ==> r.error == Raise(403, CannotView))
  {
    match FindList(lists, id)
    case None => Throw(Raise(404, ListNotFound))
    case Some(i) =>
      if !lists[i].isPublic && caller != Some(lists[i].owner) then Throw(Raise(403, CannotView))
      else Ok(lists[i])
  }

  /** The lookup shared by the changing handlers: 404 for an unknown id, then 403 with the
    * handler's message unless the caller owns the list. */
  function Owned(lists: seq<ListDoc>, id: nat, caller: Option<nat>, forbidden: string): (r: Outcome<ListDoc>)
    ensures FindList(lists, id).None? ==> r == Throw(Raise(404, ListNotFound))
    ensures FindList(lists, id).Some? ==>
            var l := lists[FindList(lists, id).value];
            (r.Ok? <==> caller == Some(l.owner))
            && (r.Ok? ==> r.value == l)
            && (r.Throw? ==> r.error == Raise(403, forbidden))
  {
    match FindList(lists, id)
    case None => Throw(Raise(404, ListNotFound))
    case Some(i) =>
      if caller != Some(lists[i].owner) then Throw(Raise(403, forbidden)) else Ok(lists[i])
  }

  /** `addMovieToList`: 400 for a falsy tmdbId (including 0) or title before the lookup;
    * then 404 and 403; 400 if the movie is already there; otherwise the list with the new
    * entry at the end, poster path defaulting to ''. */
  function WithMovie(lists: seq<ListDoc>, id: nat, caller: Option<nat>, body: MovieBody): (r: Outcome<ListDoc>)
    ensures !(TruthyNum(body.tmdbId) && TruthyStr(body.movieTitle)) ==> r == Throw(Raise(400, MissingMovieFields))
    ensures TruthyNum(body.tmdbId) && TruthyStr(body.movieTitle) && Owned(lists, id, caller, CannotModify).Throw?
            ==> r == Owned(lists, id, caller, CannotModify)
    ensures TruthyNum(body.tmdbId) && TruthyStr(body.movieTitle) && Owned(lists, id, caller, CannotModify).Ok? ==>
            var l := Owned(lists, id, caller, CannotModify).value;
            (r.Ok? <==> !HasMovie(l.movies, body.tmdbId.value))
            && (r.Throw? ==> r.error == Raise(400, MovieAlreadyInList))
            && (r.Ok? ==> r.value == l.(movies := l.movies + [MovieEntry(body.tmdbId.value, body.movieTitle.value,
                                                                          OrStr(body.posterPath, ""))]))
  {
    if !(TruthyNum(body.tmdbId) && TruthyStr(body.movieTitle)) then Throw(Raise(400, MissingMovieFields))
    else
      match Owned(lists, id, caller, CannotModify)
      case Throw(e) => Throw(e)
      case Ok(l) =>
        if HasMovie(l.movies, body.tmdbId.value) then Throw(Raise(400, MovieAlreadyInList))
        else Ok(l.(movies := l.movies + [MovieEntry(body.tmdbId.value, body.movieTitle.value, OrStr(body.posterPath, ""))]))
  }

  /** Appending a movie that is not in the list keeps the movies distinct. */
  lemma AppendKeepsDistinct(movies: seq<MovieEntry>, m: MovieEntry)
    requires DistinctMovies(movies) && !HasMovie(movies, m.tmdbId)
    ensures DistinctMovies(movies + [m]) && HasMovie(movies + [m], m.tmdbId)
  {
    var s := movies + [m];
    assert s[|movies|] == m;
    forall i, j | 0 <= i < j < |s|
      ensures s[i].tmdbId != s[j].tmdbId
    {
      if j == |movies| {
        assert s[i] == movies[i];
      }
    }
  }

  /** A `tmdbId` as a request body carries it: the JSON and urlencoded parsers give a
    * number or a string. */
  datatype RawId = RawNum(n: int) | RawStr(s: string)

  const CastFailed := "Cast to Number failed"

  /** `movie.tmdbId === tmdbId` against a stored number: a string is never strictly equal
    * to a number. */
  predicate StrictlyEqual(stored: int, raw: RawId)
  {
    raw.RawNum? && raw.n == stored
  }

  /** The schema's cast of the body's id to `Number` when the list is saved: a number as it
    * is, a non-empty string of decimal digits as its value; any other string is taken as a
    * cast failure. */
  function CastId(raw: RawId): (n: Option<int>)
    ensures raw.RawNum? ==> n == Some(raw.n)
    ensures raw.RawStr? && |raw.s| > 0 && (forall i :: 0 <= i < |raw.s| ==> IsDigit(raw.s[i]))
            ==> n == Some(DigitsValue(raw.s))
  {
    match raw
    case RawNum(v) => Some(v)
    case RawStr(t) => if |t| > 0 && forall i :: 0 <= i < |t| ==> IsDigit(t[i]) then Some(DigitsValue(t)) else None
  }

  /** The movie step of `addMovieToList` as written: the duplicate check compares the raw
    * body id with `===`, and only the save casts it to a number. */
  function AppendAsWritten(movies: seq<MovieEntry>, raw: RawId, title: string, poster: string): (r: Outcome<seq<MovieEntry>>)
    ensures (exists k | 0 <= k < |movies| :: StrictlyEqual(movies[k].tmdbId, raw)) ==> r == Throw(Raise(400, MovieAlreadyInList))
    ensures r.Ok? ==> CastId(raw).Some? && r.value == movies + [MovieEntry(CastId(raw).value, title, poster)]
  {
    if exists k | 0 <= k < |movies| :: StrictlyEqual(movies[k].tmdbId, raw) then Throw(Raise(400, MovieAlreadyInList))
    else match CastId(raw)
      case None => Throw(StoreError(CastFailed))
      case Some(n) => Ok(movies + [MovieEntry(n, title, poster)])
  }

  /** As written, a movie already in the list is added a second time when its id arrives as
    * a string: "550" is not `===` 550, and the save casts it to 550. */
  lemma StringIdDuplicates(movies: seq<MovieEntry>, n: nat, title: string, poster: string)
    requires HasMovie(movies, n)
    ensures var r := AppendAsWritten(movies, RawStr(NatToString(n)), title, poster);
            r.Ok? && !DistinctMovies(r.value)
  {
    var raw := RawStr(NatToString(n));
    DigitsValueOfNatToString(n);
    assert CastId(raw) == Some(n);
    var k :| 0 <= k < |movies| && movies[k].tmdbId == n;
    var r := AppendAsWritten(movies, raw, title, poster);
    assert r.value[k].tmdbId == n && r.value[|movies|].tmdbId == n;
  }

  /** The movie step as evidently intended: the id is cast to a number first, and the
    * duplicate check compares numbers. It agrees with the written step on numeric ids and
    * keeps the movies distinct whatever the id's type. */
  function AppendIntended(movies: seq<MovieEntry>, raw: RawId, title: string, poster: string): (r: Outcome<seq<MovieEntry>>)
    ensures raw.RawNum? ==> r == AppendAsWritten(movies, raw, title, poster)
    ensures DistinctMovies(movies) && r.Ok? ==> DistinctMovies(r.value)
    ensures r.Ok? ==> CastId(raw).Some? && !HasMovie(movies, CastId(raw).value)
                      && r.value == movies + [MovieEntry(CastId(raw).value, title, poster)]
  {
    match CastId(raw)
    case None => Throw(StoreError(CastFailed))
    case Some(n) =>
      if HasMovie(movies, n) then Throw(Raise(400, MovieAlreadyInList))
      else
        assert DistinctMovies(movies) ==> DistinctMovies(movies + [MovieEntry(n, title, poster)]) by {
          if DistinctMovies(movies) {
            AppendKeepsDistinct(movies, MovieEntry(n, title, poster));
          }
        }
        Ok(movies + [MovieEntry(n, title, poster)])
  }

  /** `movie.tmdbId !== parseInt(tmdbId, 10)`: NaN equals nothing, so it keeps every entry. */
  function KeepsMovie(parsed: Option<int>): MovieEntry -> bool
  {
    (m: MovieEntry) => parsed.None? || m.tmdbId != parsed.value
  }

  /** `removeMovieFromList`: 404 and 403; otherwise the list with every entry of that id
    * filtered out, the others kept in order, whether or not any matched. */
  function WithoutMovie(lists: seq<ListDoc>, id: nat, caller: Option<nat>, tmdbParam: string): (r: Outcome<ListDoc>)
    ensures Owned(lists, id, caller, CannotModify).Throw? ==> r == Owned(lists, id, caller, CannotModify)
    ensures Owned(lists, id, caller, CannotModify).Ok? ==> r.Ok?
    ensures r.Ok? ==> var l := Owned(lists, id, caller, CannotModify).value;
                      r.value == l.(movies := r.value.movies)
                      && (ParseInt(tmdbParam).Some? ==> !HasMovie(r.value.movies, ParseInt(tmdbParam).value))
                      && (forall k :: 0 <= k < |l.movies| && KeepsMovie(ParseInt(tmdbParam))(l.movies[k])
                                      ==> l.movies[k] in r.value.movies)
                      && multiset(r.value.movies) <= multiset(l.movies)
                      && r.value.movies == Filter(l.movies, KeepsMovie(ParseInt(tmdbParam)))
  {
    match Owned(lists, id, caller, CannotModify)
    case Throw(e) => Throw(e)
    case Ok(l) =>
      FilterSubMultiset(l.movies, KeepsMovie(ParseInt(tmdbParam)));
      Ok(l.(movies := Filter(l.movies, KeepsMovie(ParseInt(tmdbParam)))))
  }

  /** Removing keeps the movies distinct. */
  lemma RemoveKeepsDistinct(movies: seq<MovieEntry>, parsed: Option<int>)
    requires DistinctMovies(movies)
    ensures DistinctMovies(Filter(movies, KeepsMovie(parsed)))
  {
    var rel := (a: MovieEntry, b: MovieEntry) => a.tmdbId != b.tmdbId;
    assert Pairwise(movies, rel);
    FilterPairwise(movies, KeepsMovie(parsed), rel);
  }

  /** Removing a movie that is not in the list, or with an id that is not a number,
    * leaves the entries exactly as they were. */
  lemma RemoveAbsentIsNoOp(movies: seq<MovieEntry>, tmdbParam: string)
    requires ParseInt(tmdbParam).None? || !HasMovie(movies, ParseInt(tmdbParam).value)
    ensures Filter(movies, KeepsMovie(ParseInt(tmdbParam))) == movies
  {
    FilterKeepsAll(movies, KeepsMovie(ParseInt(tmdbParam)));
  }

  /** Adding a movie and then removing it by its id, as the client writes it in the path,
    * gives the original entries back. */
  lemma RemoveUndoesAdd(movies: seq<MovieEntry>, m: MovieEntry)
    requires !HasMovie(movies, m.tmdbId)
    ensures Filter(movies + [m], KeepsMovie(ParseInt(IntToString(m.tmdbId)))) == movies
  {
    ParseIntOfIntToString(m.tmdbId);
    var keep := KeepsMovie(Some(m.tmdbId));
    FilterAppend(movies, m, keep);
    FilterKeepsAll(movies, keep);
  }

  /** `updateList`: 404 and 403; then a truthy name replaces the name, a present
    * description or flag replaces its field, the movies are untouched; the store refuses a
    * name that trims to nothing or that another list of the owner has. */
  function UpdatedList(lists: seq<ListDoc>, id: nat, caller: Option<nat>, body: ListBody): (r: Outcome<ListDoc>)
    ensures Owned(lists, id, caller, CannotModify).Throw? ==> r == Owned(lists, id, caller, CannotModify)
    ensures Owned(lists, id, caller, CannotModify).Ok? ==>
            var l := Owned(lists, id, caller, CannotModify).value;
            var name := if TruthyStr(body.name) then Trim(body.name.value) else l.name;
            (r.Ok? <==> name != "" && !NameTaken(lists, l.owner, name, l.id))
            && (r.Throw? ==> r.error.statusCode.None?)
            && (r.Ok? ==> r.value.id == l.id && r.value.owner == l.owner && r.value.movies == l.movies
                          && r.value.name == name
                          && r.value.description == (if body.description.Some? then Trim(body.description.value) else l.description)
                          && r.value.isPublic == (if body.isPublic.Some? then body.isPublic.value else l.isPublic))
  {
    match Owned(lists, id, caller, CannotModify)
    case Throw(e) => Throw(e)
    case Ok(l) =>
      var d := l.(name := if TruthyStr(body.name) then Trim(body.name.value) else l.name,
                  description := if body.description.Some? then Trim(body.description.value) else l.description,
                  isPublic := if body.isPublic.Some? then body.isPublic.value else l.isPublic);
      if d.name == "" then Throw(StoreError(ValidationFailed))
      else if NameTaken(lists, d.owner, d.name, d.id) then Throw(StoreError(DuplicateKey))
      else Ok(d)
  }

  /** `{ _id: { $ne: id } }`: what `deleteOne({ _id: id })` leaves. */
  function OtherThan(id: nat): ListDoc -> bool
  {
    (l: ListDoc) => l.id != id
  }

  /** Appending a valid list with the next id and a free (owner, name) pair keeps the
    * collection's invariant. */
  lemma AppendKeepsValid(lists: seq<ListDoc>, nextId: nat, d: ListDoc)
    requires ListsValid(lists, nextId)
    requires d.id == nextId && ListValid(d) && !NameTaken(lists, d.owner, d.name, -1)
    ensures ListsValid(lists + [d], nextId + 1)
  {
    var s := lists + [d];
    assert EachListValid(s, nextId + 1) by {
      assert EachListValid(lists, nextId);
      assert forall k | 0 <= k < |lists| :: s[k] == lists[k];
    }
    assert ListsOrdered(lists);
    forall i, j | 0 <= i < j < |s|
      ensures s[i].id < s[j].id && !(s[i].owner == s[j].owner && s[i].name == s[j].name)
    {
      if j == |lists| {
        assert s[i] == lists[i];
        assert lists[i].id != -1;
      } else {
        assert s[i] == lists[i] && s[j] == lists[j];
      }
    }
  }

  /** Creating a list keeps the collection's invariant, whatever the outcome. */
  lemma CreateKeepsValid(lists: seq<ListDoc>, nextId: nat, caller: Option<nat>, body: ListBody)
    requires ListsValid(lists, nextId)
    ensures var r := CreatedList(lists, nextId, caller, body);
            r.Ok? ==> ListsValid(lists + [r.value], nextId + 1)
  {
    var r := CreatedList(lists, nextId, caller, body);
    if r.Ok? {
      AppendKeepsValid(lists, nextId, r.value);
    }
  }

  /** Adding a movie keeps the collection's invariant, the movies of the list included. */
  lemma AddKeepsValid(lists: seq<ListDoc>, nextId: nat, id: nat, caller: Option<nat>, body: MovieBody)
    requires ListsValid(lists, nextId)
    ensures var r := WithMovie(lists, id, caller, body);
            ListsValid(if r.Ok? then ReplaceById(lists, r.value) else lists, nextId)
  {
    var r := WithMovie(lists, id, caller, body);
    if r.Ok? {
      var d := r.value;
      var i := FindList(lists, id).value;
      var m := MovieEntry(body.tmdbId.value, body.movieTitle.value, OrStr(body.posterPath, ""));
      assert d == lists[i].(movies := lists[i].movies + [m]);
      assert ListValid(lists[i]);
      AppendKeepsDistinct(lists[i].movies, m);
      NameStaysFree(lists, i, d);
      ReplaceKeepsValid(lists, nextId, d);
    }
  }

  /** Removing a movie keeps the collection's invariant. */
  lemma RemoveKeepsValid(lists: seq<ListDoc>, nextId: nat, id: nat, caller: Option<nat>, tmdbParam: string)
    requires ListsValid(lists, nextId)
    ensures var r := WithoutMovie(lists, id, caller, tmdbParam);
            ListsValid(if r.Ok? then ReplaceById(lists, r.value) else lists, nextId)
  {
    var r := WithoutMovie(lists, id, caller, tmdbParam);
    if r.Ok? {
      var d := r.value;
      var i := FindList(lists, id).value;
      assert d == lists[i].(movies := Filter(lists[i].movies, KeepsMovie(ParseInt(tmdbParam))));
      assert ListValid(lists[i]);
      RemoveKeepsDistinct(lists[i].movies, ParseInt(tmdbParam));
      NameStaysFree(lists, i, d);
      ReplaceKeepsValid(lists, nextId, d);
    }
  }

  /** Updating a list keeps the collection's invariant. */
  lemma UpdateKeepsValid(lists: seq<ListDoc>, nextId: nat, id: nat, caller: Option<nat>, body: ListBody)
    requires ListsValid(lists, nextId)
    ensures var r := UpdatedList(lists, id, caller, body);
            ListsValid(if r.Ok? then ReplaceById(lists, r.value) else lists, nextId)
  {
    var r := UpdatedList(lists, id, caller, body);
    if r.Ok? {
      var d := r.value;
      var i := FindList(lists, id).value;
      assert ListValid(lists[i]);
      if TruthyStr(body.name) {
        TrimIsTrimmed(body.name.value);
      }
      if body.description.Some? {
        TrimIsTrimmed(body.description.value);
      }
      assert ListValid(d);
      ReplaceKeepsValid(lists, nextId, d);
    }
  }

  /** Deleting a list keeps the collection's invariant. */
  lemma DeleteKeepsValid(lists: seq<ListDoc>, nextId: nat, id: nat, caller: Option<nat>)
    requires ListsValid(lists, nextId)
    ensures ListsValid(if Owned(lists, id, caller, CannotDelete).Ok? then Filter(lists, OtherThan(id)) else lists, nextId)
  {
    if Owned(lists, id, caller, CannotDelete).Ok? {
      FilterKeepsValid(lists, nextId, id);
    }
  }

  /** Dropping the lists with one id keeps the collection's invariant. */
  lemma FilterKeepsValid(lists: seq<ListDoc>, nextId: nat, id: nat)
    requires ListsValid(lists, nextId)
    ensures ListsValid(Filter(lists, OtherThan(id)), nextId)
  {
    var r := Filter(lists, OtherThan(id));
    assert EachListValid(lists, nextId);
    FilterSubMultiset(lists, OtherThan(id));
    forall k | 0 <= k < |r|
      ensures r[k].id < nextId && ListValid(r[k])
    {
      var m :| 0 <= m < |lists| && lists[m] == r[k];
    }
    var rel := (a: ListDoc, b: ListDoc) => a.id < b.id && !(a.owner == b.owner && a.name == b.name);
    assert ListsOrdered(lists);
    assert Pairwise(lists, rel);
    FilterPairwise(lists, OtherThan(id), rel);
  }

  /** The list collection. */
  class ListStore {
    var lists: seq<ListDoc>
    var nextId: nat

    predicate Valid()
      reads this
    {
      ListsValid(lists, nextId)
    }

    constructor ()
      ensures Valid() && lists == []
    {
      lists := [];
      nextId := 0;
    }

    /** `createList`: the new list is appended on success. */
    method CreateList(caller: Option<nat>, body: ListBody) returns (r: Outcome<ListDoc>)
      requires Valid()
      modifies this
      ensures Valid()
      ensures r == CreatedList(old(lists), old(nextId), caller, body)
      ensures lists == if r.Ok? then old(lists) + [r.value] else old(lists)
      ensures nextId == if r.Ok? then old(nextId) + 1 else old(nextId)
    {
      r := CreatedList(lists, nextId, caller, body);
      CreateKeepsValid(lists, nextId, caller, body);
      lists, nextId := if r.Ok? then lists + [r.value] else lists, if r.Ok? then nextId + 1 else nextId;
    }

    /** `addMovieToList`: the changed list is saved in place of the old one. */
    method AddMovieToList(id: nat, caller: Option<nat>, body: MovieBody) returns (r: Outcome<ListDoc>)
      requires Valid()
      modifies this
      ensures Valid() && nextId == old(nextId)
      ensures r == WithMovie(old(lists), id, caller, body)
      ensures lists == if r.Ok? then ReplaceById(old(lists), r.value) else old(lists)
    {
      r := WithMovie(lists, id, caller, body);
      AddKeepsValid(lists, nextId, id, caller, body);
      lists := if r.Ok? then ReplaceById(lists, r.value) else lists;
    }

    /** `removeMovieFromList`: the filtered list is saved in place of the old one. */
    method RemoveMovieFromList(id: nat, caller: Option<nat>, tmdbParam: string) returns (r: Outcome<ListDoc>)
      requires Valid()
      modifies this
      ensures Valid() && nextId == old(nextId)
      ensures r == WithoutMovie(old(lists), id, caller, tmdbParam)
      ensures lists == if r.Ok? then ReplaceById(old(lists), r.value) else old(lists)
    {
      r := WithoutMovie(lists, id, caller, tmdbParam);
      RemoveKeepsValid(lists, nextId, id, caller, tmdbParam);
      lists := if r.Ok? then ReplaceById(lists, r.value) else lists;
    }

    /** `updateList`: the changed list is saved in place of the old one. */
    method UpdateList(id: nat, caller: Option<nat>, body: ListBody) returns (r: Outcome<ListDoc>)
      requires Valid()
      modifies this
      ensures Valid() && nextId == old(nextId)
      ensures r == UpdatedList(old(lists), id, caller, body)
      ensures lists == if r.Ok? then ReplaceById(old(lists), r.value) else old(lists)
    {
      r := UpdatedList(lists, id, caller, body);
      UpdateKeepsValid(lists, nextId, id, caller, body);
      lists := if r.Ok? then ReplaceById(lists, r.value) else lists;
    }

    /** `deleteList`: 404 and 403 as for the other changes, then the list is removed. */
    method DeleteList(id: nat, caller: Option<nat>) returns (r: Outcome<ListDoc>)
      requires Valid()
      modifies this
      ensures Valid() && nextId == old(nextId)
      ensures r == Owned(old(lists), id, caller, CannotDelete)
      ensures lists == if r.Ok? then Filter(old(lists), OtherThan(id)) else old(lists)
    {
      r := Owned(lists, id, caller, CannotDelete);
      DeleteKeepsValid(lists, nextId, id, caller);
      lists := if r.Ok? then Filter(lists, OtherThan(id)) else lists;
    }
  }

  /** A list whose owner and name do not change keeps its (owner, name) pair free. */
  lemma NameStaysFree(lists: seq<ListDoc>, i: nat, d: ListDoc)
    requires ListsOrdered(lists) && i < |lists|
    requires d.id == lists[i].id && d.owner == lists[i].owner && d.name == lists[i].name
    ensures !NameTaken(lists, d.owner, d.name, d.id)
  {
    forall k | 0 <= k < |lists| && lists[k].id != d.id
      ensures !(lists[k].owner == d.owner && lists[k].name == d.name)
    {
      if k < i {
        assert !(lists[k].owner == lists[i].owner && lists[k].name == lists[i].name);
      } else {
        assert !(lists[i].owner == lists[k].owner && lists[i].name == lists[k].name);
      }
    }
  }
}
