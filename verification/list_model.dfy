/**
 * The custom-list document (server/src/models/List.ts): an owner, a trimmed required
 * name, a trimmed description, the public flag (false by default) and the movie
 * entries; the collection has a unique index on (owner, name).
 */
module ListModel {
  import opened Js

  /** One movie of a list. */
  datatype MovieEntry = MovieEntry(tmdbId: int, movieTitle: string, posterPath: string)

  /** A stored list; `id` doubles as the creation order. */
  datatype ListDoc = ListDoc(id: nat, owner: nat, name: string, description: string, isPublic: bool,
                             movies: seq<MovieEntry>)

  /** The client treats the list named exactly "Watchlist" as the user's watchlist. */
  const WatchlistName := "Watchlist"

  predicate IsWatchlist(l: ListDoc)
  {
    l.name == WatchlistName
  }

  /** The list contains the movie. */
  predicate HasMovie(movies: seq<MovieEntry>, tmdbId: int)
  {
    exists k | 0 <= k < |movies| :: movies[k].tmdbId == tmdbId
  }

  /** No movie appears twice in a list. */
  predicate DistinctMovies(movies: seq<MovieEntry>)
  {
    forall i, j :: 0 <= i < j < |movies| ==> movies[i].tmdbId != movies[j].tmdbId
  }

  /** What the schema and the handlers guarantee of every stored list: the name is present
    * and trimmed, the description trimmed, and the movies distinct. */
  predicate ListValid(l: ListDoc)
  {
    l.name != "" && Trimmed(l.name) && Trimmed(l.description) && DistinctMovies(l.movies)
  }

  /** The unique index on (owner, name) lets no other list of the owner have the name. */
  predicate NameTaken(lists: seq<ListDoc>, owner: nat, name: string, except: int)
  {
    exists k | 0 <= k < |lists| :: lists[k].id != except && lists[k].owner == owner && lists[k].name == name
  }

  /** Every list is valid and has an id below the next one. */
  predicate EachListValid(lists: seq<ListDoc>, nextId: nat)
  {
    forall i :: 0 <= i < |lists| ==> lists[i].id < nextId && ListValid(lists[i])
  }

  /** Ids increase along the collection and no (owner, name) pair occurs twice. */
  predicate ListsOrdered(lists: seq<ListDoc>)
  {
    forall i, j :: 0 <= i < j < |lists| ==>
      lists[i].id < lists[j].id && !(lists[i].owner == lists[j].owner && lists[i].name == lists[j].name)
  }

  /** The collection's invariant. */
  predicate ListsValid(lists: seq<ListDoc>, nextId: nat)
  {
    EachListValid(lists, nextId) && ListsOrdered(lists)
  }

  /** `findById`. */
  function FindList(lists: seq<ListDoc>, id: nat): (r: Option<nat>)
    ensures r.Some? ==> r.value < |lists| && lists[r.value].id == id
    ensures r.None? <==> forall k | 0 <= k < |lists| :: lists[k].id != id
  {
    FindIndex(lists, (l: ListDoc) => l.id == id)
  }

  /** Saving a changed document: the stored list with the same id is replaced. */
  function ReplaceById(lists: seq<ListDoc>, d: ListDoc): (r: seq<ListDoc>)
    ensures |r| == |lists|
    ensures forall k | 0 <= k < |lists| :: r[k] == if lists[k].id == d.id then d else lists[k]
  {
    seq(|lists|, k requires 0 <= k < |lists| => if lists[k].id == d.id then d else lists[k])
  }

  /** Replacing a list by a valid version of itself whose (owner, name) is free keeps the
    * collection's invariant. */
  lemma ReplaceKeepsValid(lists: seq<ListDoc>, nextId: nat, d: ListDoc)
    requires ListsValid(lists, nextId)
    requires exists k | 0 <= k < |lists| :: lists[k].id == d.id
    requires ListValid(d) && !NameTaken(lists, d.owner, d.name, d.id)
    ensures ListsValid(ReplaceById(lists, d), nextId)
  {
    ReplaceKeepsEach(lists, nextId, d);
    ReplaceKeepsOrder(lists, d);
  }

  lemma ReplaceKeepsEach(lists: seq<ListDoc>, nextId: nat, d: ListDoc)
    requires EachListValid(lists, nextId)
    requires exists k | 0 <= k < |lists| :: lists[k].id == d.id
    requires ListValid(d)
    ensures EachListValid(ReplaceById(lists, d), nextId)
  {
    var r := ReplaceById(lists, d);
    forall i | 0 <= i < |r|
      ensures r[i].id < nextId && ListValid(r[i])
    {
      if lists[i].id == d.id {
        assert r[i] == d;
      } else {
        assert r[i] == lists[i];
      }
    }
  }

  lemma ReplaceKeepsOrder(lists: seq<ListDoc>, d: ListDoc)
    requires ListsOrdered(lists)
    requires !NameTaken(lists, d.owner, d.name, d.id)
    ensures ListsOrdered(ReplaceById(lists, d))
  {
    var r := ReplaceById(lists, d);
    forall i, j | 0 <= i < j < |r|
      ensures r[i].id < r[j].id && !(r[i].owner == r[j].owner && r[i].name == r[j].name)
    {
      if lists[i].id == d.id {
        assert r[i] == d && r[j] == lists[j];
      } else if lists[j].id == d.id {
        assert r[j] == d && r[i] == lists[i];
      } else {
        assert r[i] == lists[i] && r[j] == lists[j];
      }
    }
  }
}
