/**
 * The watchlist entry (server/src/models/Watchlist.ts): an owner, the movie (id,
 * required title, optional poster) and the time it was added; the collection has a
 * unique index on (owner, movie id). Times are millisecond timestamps.
 */
module WatchlistModel {
  import opened Js

  /** A stored entry; `id` doubles as the creation order. */
  datatype Entry = Entry(id: nat, owner: nat, tmdbId: int, movieTitle: string, posterPath: Option<string>,
                         addedAt: nat)

  /** The owner has the movie on their watchlist. */
  predicate Watching(entries: seq<Entry>, owner: nat, tmdbId: int)
  {
    exists k | 0 <= k < |entries| :: entries[k].owner == owner && entries[k].tmdbId == tmdbId
  }

  /** The collection's invariant: every entry has a title and an id below the next one;
    * ids and addition times follow the collection's order (the clock does not go back);
    * no (owner, movie) pair occurs twice. */
  predicate EntriesValid(entries: seq<Entry>, nextId: nat)
  {
    (forall i :: 0 <= i < |entries| ==> entries[i].id < nextId && entries[i].movieTitle != "")
    && (forall i, j :: 0 <= i < j < |entries| ==>
          entries[i].id < entries[j].id && entries[i].addedAt <= entries[j].addedAt
          && !(entries[i].owner == entries[j].owner && entries[i].tmdbId == entries[j].tmdbId))
  }

  /** `findOne({ user, tmdbId })`. */
  function FindEntry(entries: seq<Entry>, owner: nat, tmdbId: int): (r: Option<nat>)
    ensures r.Some? ==> r.value < |entries| && entries[r.value].owner == owner && entries[r.value].tmdbId == tmdbId
    ensures r.None? <==> !Watching(entries, owner, tmdbId)
  {
    FindIndex(entries, (e: Entry) => e.owner == owner && e.tmdbId == tmdbId)
  }

  /** In a valid collection an entry is found exactly by its owner and movie. */
  lemma FindEntryUnique(entries: seq<Entry>, nextId: nat, owner: nat, tmdbId: int, k: nat)
    requires EntriesValid(entries, nextId)
    requires k < |entries| && entries[k].owner == owner && entries[k].tmdbId == tmdbId
    ensures FindEntry(entries, owner, tmdbId) == Some(k)
  {
  }
}
