/**
 * The watchlist routes (server/src/routes/watchlistRoutes.ts). These handlers answer
 * their own errors with a status and a message; anything the store throws goes to the
 * error handler. The clock that stamps an addition is a parameter.
 */
module WatchlistRoutes {
  import opened Js
  import opened Query
  import opened WatchlistModel

  /** The fields of an add request body. */
  datatype WatchBody = WatchBody(tmdbId: Option<int>, movieTitle: Option<string>, posterPath: Option<string>)

  const PageSize: nat := 20
  const Unauthorized := "Unauthorized"
  const MissingFields := "Missing required fields"
  const AlreadyWatching := "Movie already in watchlist"
  const NotWatching := "Not found in watchlist"
  const CastFailed := "Cast to Number failed"

  /** `POST /add`: 401 without a caller, 400 without a movie id or title, 400 when the
    * movie is already on the caller's list, otherwise the new entry stamped `now`. */
  function Added(entries: seq<Entry>, nextId: nat, caller: Option<nat>, body: WatchBody, now: nat): (r: Outcome<Entry>)
    ensures caller.None? ==> r == Throw(Raise(401, Unauthorized))
    ensures (caller.Some? && !(TruthyNum(body.tmdbId) && TruthyStr(body.movieTitle)))
            ==> r == Throw(Raise(400, MissingFields))
    ensures (caller.Some? && TruthyNum(body.tmdbId) && TruthyStr(body.movieTitle)) ==>
            (r.Ok? <==> !Watching(entries, caller.value, body.tmdbId.value))
            && (r.Throw? ==> r.error == Raise(400, AlreadyWatching))
    ensures r.Ok? ==> r.value == Entry(nextId, caller.value, body.tmdbId.value, body.movieTitle.value,
                                       body.posterPath, now)
  {
    if caller.None? then Throw(Raise(401, Unauthorized))
    else if !(TruthyNum(body.tmdbId) && TruthyStr(body.movieTitle)) then Throw(Raise(400, MissingFields))
    else if FindEntry(entries, caller.value, body.tmdbId.value).Some? then Throw(Raise(400, AlreadyWatching))
    else Ok(Entry(nextId, caller.value, body.tmdbId.value, body.movieTitle.value, body.posterPath, now))
  }

  /** `parseInt(req.query.page) || 1`, with no radix: a missing, non-numeric or zero page
    * is page 1, and a page written "0x..." is read in hexadecimal. */
  function WatchPage(query: Option<string>): (page: int)
    ensures page != 0
    ensures query.Some? && ParseIntAuto(query.value).Some? && ParseIntAuto(query.value).value != 0
            ==> page == ParseIntAuto(query.value).value
    ensures query.None? || ParseIntAuto(query.value).None? || ParseIntAuto(query.value) == Some(0) ==> page == 1
  {
    if query.Some? && ParseIntAuto(query.value).Some? && ParseIntAuto(query.value).value != 0
    then ParseIntAuto(query.value).value else 1
  }

  /** Every page number written out in decimal reads back as itself, and so does "0x2"
    * as page 2. */
  lemma WatchPageOfPage(p: int)
    requires p != 0
    ensures WatchPage(Some(IntToString(p))) == p
    ensures WatchPage(Some("0x2")) == 2
  {
    ParseIntAutoOfIntToString(p);
    ParseIntAutoHex();
  }

  /** The owner filter `{ user }`. */
  function OwnedBy(owner: nat): Entry -> bool
  {
    (e: Entry) => e.owner == owner
  }

  /** `GET /`: 401 without a caller; otherwise twenty of the caller's entries, latest
    * addition first, and the pagination over all of them. The store refuses the
    * negative offset of a negative page. */
  function GetWatchlist(entries: seq<Entry>, caller: Option<nat>, pageQuery: Option<string>): (r: Outcome<Page<Entry>>)
    ensures caller.None? ==> r == Throw(Raise(401, Unauthorized))
    ensures caller.Some? ==> (r.Ok? <==> WatchPage(pageQuery) >= 1)
    ensures caller.Some? && r.Throw? ==> r.error.statusCode.None?
    ensures r.Ok? ==> |r.value.data| <= PageSize
                      && (forall k :: 0 <= k < |r.value.data| ==> r.value.data[k].owner == caller.value)
                      && r.value.pagination.page == WatchPage(pageQuery)
                      && r.value.pagination.total == |Filter(entries, OwnedBy(caller.value))|
                      && r.value.pagination.total <= r.value.pagination.pages * PageSize
    ensures r.Ok? ==> var theirs := NewestFirst(entries, OwnedBy(caller.value));
                      var p := WatchPage(pageQuery);
                      r.value.data == Window(theirs, (p - 1) * PageSize, PageSize)
                      && r.value.pagination == Pagination(|theirs|, p, PageSize, PageCount(|theirs|, PageSize))
  {
    if caller.None? then Throw(Raise(401, Unauthorized))
    else OwnerPage(entries, caller.value, WatchPage(pageQuery))
  }

  /** One page of an owner's entries, latest addition first: the store refuses the
    * negative offset of a page below 1. */
  function OwnerPage(entries: seq<Entry>, owner: nat, page: int): (r: Outcome<Page<Entry>>)
    ensures r.Ok? <==> page >= 1
    ensures r.Throw? ==> r.error.statusCode.None?
    ensures r.Ok? ==> |r.value.data| <= PageSize
                      && (forall k :: 0 <= k < |r.value.data| ==> r.value.data[k].owner == owner)
                      && r.value.pagination.page == page
                      && r.value.pagination.total == |Filter(entries, OwnedBy(owner))|
                      && r.value.pagination.total <= r.value.pagination.pages * PageSize
    ensures r.Ok? ==> var theirs := NewestFirst(entries, OwnedBy(owner));
                      r.value.data == Window(theirs, (page - 1) * PageSize, PageSize)
                      && r.value.pagination == Pagination(|theirs|, page, PageSize, PageCount(|theirs|, PageSize))
  {
    match Skip(Some(page), PageSize)
    case Throw(e) => Throw(e)
    case Ok(skip) =>
      var theirs := NewestFirst(entries, OwnedBy(owner));
      NewestFirstWindow(entries, OwnedBy(owner), skip, PageSize);
      Ok(Page(Window(theirs, skip, PageSize), Pagination(|theirs|, page, PageSize, PageCount(|theirs|, PageSize))))
  }

  /** The page is in `sort({ addedAt: -1 })` order. */
  lemma WatchlistLatestFirst(entries: seq<Entry>, nextId: nat, caller: Option<nat>, pageQuery: Option<string>)
    requires EntriesValid(entries, nextId)
    requires GetWatchlist(entries, caller, pageQuery).Ok?
    ensures var data := GetWatchlist(entries, caller, pageQuery).value.data;
            forall i, j :: 0 <= i < j < |data| ==> data[i].addedAt >= data[j].addedAt
  {
    var rel := (a: Entry, b: Entry) => a.addedAt <= b.addedAt;
    assert Pairwise(entries, rel);
    FilterPairwise(entries, OwnedBy(caller.value), rel);
  }

  /** The filter `{ user, tmdbId }` negated: what `findOneAndDelete` leaves. */
  function OtherThan(owner: nat, tmdbId: int): Entry -> bool
  {
    (e: Entry) => !(e.owner == owner && e.tmdbId == tmdbId)
  }

  /** `DELETE /:tmdbId`: 401 without a caller; a movie id that is not a number fails the
    * store's cast; 404 when the movie is not on the caller's list; otherwise the entry
    * that is removed. */
  function Removed(entries: seq<Entry>, caller: Option<nat>, param: string): (r: Outcome<Entry>)
    ensures caller.None? ==> r == Throw(Raise(401, Unauthorized))
    ensures caller.Some? && ParseInt(param).None? ==> r == Throw(StoreError(CastFailed))
    ensures caller.Some? && ParseInt(param).Some? ==>
            (r.Ok? <==> Watching(entries, caller.value, ParseInt(param).value))
            && (r.Throw? ==> r.error == Raise(404, NotWatching))
    ensures r.Ok? ==> r.value in entries && r.value.owner == caller.value && r.value.tmdbId == ParseInt(param).value
  {
    if caller.None? then Throw(Raise(401, Unauthorized))
    else match ParseInt(param)
      case None => Throw(StoreError(CastFailed))
      case Some(t) =>
        match FindEntry(entries, caller.value, t)
        case None => Throw(Raise(404, NotWatching))
        case Some(i) => Ok(entries[i])
  }

  /** `GET /check/:tmdbId`: whether the movie is on the caller's list. */
  function Checked(entries: seq<Entry>, caller: Option<nat>, param: string): (r: Outcome<bool>)
    ensures caller.None? ==> r == Throw(Raise(401, Unauthorized))
    ensures caller.Some? && ParseInt(param).None? ==> r == Throw(StoreError(CastFailed))
    ensures caller.Some? && ParseInt(param).Some? ==>
            r == Ok(Watching(entries, caller.value, ParseInt(param).value))
  {
    if caller.None? then Throw(Raise(401, Unauthorized))
    else match ParseInt(param)
      case None => Throw(StoreError(CastFailed))
      case Some(t) => Ok(FindEntry(entries, caller.value, t).Some?)
  }

  /** An addition keeps the collection's invariant when the clock has not gone back. */
  lemma AddKeepsValid(entries: seq<Entry>, nextId: nat, caller: Option<nat>, body: WatchBody, now: nat)
    requires EntriesValid(entries, nextId) && Added(entries, nextId, caller, body, now).Ok?
    requires forall k :: 0 <= k < |entries| ==> entries[k].addedAt <= now
    ensures EntriesValid(entries + [Added(entries, nextId, caller, body, now).value], nextId + 1)
  {
    var e := Added(entries, nextId, caller, body, now).value;
    var s := entries + [e];
    forall i, j | 0 <= i < j < |s|
      ensures s[i].id < s[j].id && s[i].addedAt <= s[j].addedAt
              && !(s[i].owner == s[j].owner && s[i].tmdbId == s[j].tmdbId)
    {
      if j == |entries| {
        assert s[i] == entries[i] && s[j] == e;
      } else {
        assert s[i] == entries[i] && s[j] == entries[j];
      }
    }
  }

  /** A removal keeps the collection's invariant. */
  lemma RemoveKeepsValid(entries: seq<Entry>, nextId: nat, owner: nat, tmdbId: int)
    requires EntriesValid(entries, nextId)
    ensures EntriesValid(Filter(entries, OtherThan(owner, tmdbId)), nextId)
  {
    var r := Filter(entries, OtherThan(owner, tmdbId));
    FilterSubMultiset(entries, OtherThan(owner, tmdbId));
    forall k | 0 <= k < |r|
      ensures r[k].id < nextId && r[k].movieTitle != ""
    {
      var m :| 0 <= m < |entries| && entries[m] == r[k];
    }
    var rel := (a: Entry, b: Entry) => a.id < b.id && a.addedAt <= b.addedAt
                                       && !(a.owner == b.owner && a.tmdbId == b.tmdbId);
    assert Pairwise(entries, rel);
    FilterPairwise(entries, OtherThan(owner, tmdbId), rel);
  }

  /** After a successful addition the check answers true; a second addition of the same
    * movie is refused. */
  lemma CheckAfterAdd(entries: seq<Entry>, nextId: nat, caller: nat, body: WatchBody, now: nat)
    requires Added(entries, nextId, Some(caller), body, now).Ok?
    ensures var after := entries + [Added(entries, nextId, Some(caller), body, now).value];
            Checked(after, Some(caller), IntToString(body.tmdbId.value)) == Ok(true)
            && Added(after, nextId + 1, Some(caller), body, now) == Throw(Raise(400, AlreadyWatching))
  {
    var after := entries + [Added(entries, nextId, Some(caller), body, now).value];
    ParseIntOfIntToString(body.tmdbId.value);
    assert after[|entries|].owner == caller && after[|entries|].tmdbId == body.tmdbId.value;
  }

  /** After a removal the check answers false, and the caller may add the movie again. */
  lemma CheckAfterRemove(entries: seq<Entry>, nextId: nat, caller: nat, tmdbId: int)
    requires EntriesValid(entries, nextId)
    ensures var after := Filter(entries, OtherThan(caller, tmdbId));
            Checked(after, Some(caller), IntToString(tmdbId)) == Ok(false)
            && Removed(after, Some(caller), IntToString(tmdbId)) == Throw(Raise(404, NotWatching))
  {
    var after := Filter(entries, OtherThan(caller, tmdbId));
    ParseIntOfIntToString(tmdbId);
    assert !Watching(after, caller, tmdbId) by {
      forall k | 0 <= k < |after|
        ensures !(after[k].owner == caller && after[k].tmdbId == tmdbId)
      {
        assert OtherThan(caller, tmdbId)(after[k]);
      }
    }
  }

  /** A removal takes away exactly the caller's entry for that movie: every other entry,
    * the other users' included, stays. */
  lemma RemoveTakesOnlyThatEntry(entries: seq<Entry>, nextId: nat, caller: nat, param: string)
    requires EntriesValid(entries, nextId)
    requires Removed(entries, Some(caller), param).Ok?
    ensures var gone := Removed(entries, Some(caller), param).value;
            var after := Filter(entries, OtherThan(caller, ParseInt(param).value));
            |after| == |entries| - 1
            && gone !in after
            && forall k :: 0 <= k < |entries| && entries[k] != gone ==> entries[k] in after
  {
    var t := ParseInt(param).value;
    var i := FindEntry(entries, caller, t).value;
    RemoveCount(entries, nextId, caller, t, i);
  }

  /** Removing by (owner, movie) from a valid collection drops exactly one entry. */
  lemma {:induction false} RemoveCount(entries: seq<Entry>, nextId: nat, caller: nat, t: int, i: nat)
    requires EntriesValid(entries, nextId)
    requires i < |entries| && entries[i].owner == caller && entries[i].tmdbId == t
    ensures |Filter(entries, OtherThan(caller, t))| == |entries| - 1
  {
    var keep := OtherThan(caller, t);
    if i == 0 {
      assert entries[1..] == entries[1..];
      forall k | 0 <= k < |entries[1..]|
        ensures keep(entries[1..][k])
      {
        assert entries[1 + k] == entries[1..][k];
      }
      FilterKeepsAll(entries[1..], keep);
    } else {
      assert EntriesValid(entries[1..], nextId);
      RemoveCount(entries[1..], nextId, caller, t, i - 1);
      assert keep(entries[0]);
    }
  }

  /** The caller's watchlist. */
  class WatchlistStore {
    var entries: seq<Entry>
    var nextId: nat

    predicate Valid()
      reads this
    {
      EntriesValid(entries, nextId)
    }

    constructor ()
      ensures Valid() && entries == []
    {
      entries := [];
      nextId := 0;
    }

    /** `POST /add`: the new entry is saved on success. The clock must not go back. */
    method Add(caller: Option<nat>, body: WatchBody, now: nat) returns (r: Outcome<Entry>)
      requires Valid()
      requires forall k :: 0 <= k < |entries| ==> entries[k].addedAt <= now
      modifies this
      ensures Valid()
      ensures r == Added(old(entries), old(nextId), caller, body, now)
      ensures r.Ok? ==> entries == old(entries) + [r.value] && nextId == old(nextId) + 1
      ensures r.Throw? ==> entries == old(entries) && nextId == old(nextId)
    {
      r := Added(entries, nextId, caller, body, now);
      if r.Ok? {
        AddKeepsValid(entries, nextId, caller, body, now);
        entries := entries + [r.value];
        nextId := nextId + 1;
      }
    }

    /** `DELETE /:tmdbId`: the caller's entry for the movie is deleted on success. */
    method Remove(caller: Option<nat>, param: string) returns (r: Outcome<Entry>)
      requires Valid()
      modifies this
      ensures Valid() && nextId == old(nextId)
      ensures r == Removed(old(entries), caller, param)
      ensures entries == if r.Ok? then Filter(old(entries), OtherThan(caller.value, ParseInt(param).value))
                         else old(entries)
    {
      r := Removed(entries, caller, param);
      if r.Ok? {
        RemoveKeepsValid(entries, nextId, caller.value, ParseInt(param).value);
        entries := Filter(entries, OtherThan(caller.value, ParseInt(param).value));
      }
    }
  }
}
