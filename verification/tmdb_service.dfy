/**
 * The movie-database client (client services/tmdb.ts): the image URL builders and the
 * query of the discover endpoint. The HTTP requests themselves are not modelled; the
 * discover query is built as the map of parameters the request would carry.
 */
module TmdbService {
  import opened Js

  /** The fields of a movie the model uses. */
  datatype Movie = Movie(id: int, title: string, posterPath: Option<string>, backdropPath: Option<string>)

  const ImageBase := "https://image.tmdb.org/t/p"
  const PosterPlaceholder := "https://via.placeholder.com/342x513?text=No+Image"
  const BackdropPlaceholder := "https://via.placeholder.com/1280x720?text=No+Backdrop"
  const ApiKeyParam := "api_key"

  datatype PosterSize = W92 | W154 | W185 | W342 | W500 | W780 | PosterOriginal
  datatype BackdropSize = W300 | BackdropW780 | W1280 | BackdropOriginal

  function PosterSizeName(size: PosterSize): string
  {
    match size
    case W92 => "w92"
    case W154 => "w154"
    case W185 => "w185"
    case W342 => "w342"
    case W500 => "w500"
    case W780 => "w780"
    case PosterOriginal => "original"
  }

  function BackdropSizeName(size: BackdropSize): string
  {
    match size
    case W300 => "w300"
    case BackdropW780 => "w780"
    case W1280 => "w1280"
    case BackdropOriginal => "original"
  }

  /** `${imageBaseUrl}/${size}${path}`. */
  function ImageUrl(sizeName: string, path: string): string
  {
    ImageBase + "/" + sizeName + path
  }

  /** `getPosterUrl`: the placeholder for a missing or empty path, otherwise the image of
    * that size (w342 unless told otherwise). */
  function PosterUrl(path: Option<string>, size: PosterSize := W342): (url: string)
    ensures !TruthyStr(path) ==> url == PosterPlaceholder
    ensures TruthyStr(path) ==> url == ImageUrl(PosterSizeName(size), path.value)
  {
    if !TruthyStr(path) then PosterPlaceholder else ImageUrl(PosterSizeName(size), path.value)
  }

  /** `getBackdropUrl`: the placeholder for a missing or empty path, otherwise the image of
    * that size (w780 unless told otherwise). */
  function BackdropUrl(path: Option<string>, size: BackdropSize := BackdropW780): (url: string)
    ensures !TruthyStr(path) ==> url == BackdropPlaceholder
    ensures TruthyStr(path) ==> url == ImageUrl(BackdropSizeName(size), path.value)
  {
    if !TruthyStr(path) then BackdropPlaceholder else ImageUrl(BackdropSizeName(size), path.value)
  }

  /** An image URL names its path: two paths give the same URL of a size only when they
    * are the same path, and no image URL is a placeholder. */
  lemma ImageUrlInjective(sizeName: string, p: string, q: string)
    requires ImageUrl(sizeName, p) == ImageUrl(sizeName, q)
    ensures p == q
  {
    var prefix := ImageBase + "/" + sizeName;
    assert ImageUrl(sizeName, p)[|prefix|..] == p;
    assert ImageUrl(sizeName, q)[|prefix|..] == q;
  }

  /** The placeholders are never taken for an image of the database. */
  lemma PlaceholdersAreNotImages(sizeName: string, path: string)
    ensures ImageUrl(sizeName, path) != PosterPlaceholder
    ensures ImageUrl(sizeName, path) != BackdropPlaceholder
  {
    var u := ImageUrl(sizeName, path);
    assert u[8] == 'i';
    assert PosterPlaceholder[8] == 'v';
    assert BackdropPlaceholder[8] == 'v';
  }

  /** A value of the discover filter object. */
  datatype ParamValue = Num(n: int) | Str(s: string)

  /** `value.toString()`. */
  function ToText(v: ParamValue): string
  {
    match v
    case Num(n) => IntToString(n)
    case Str(s) => s
  }

  /** The keys of an object's entries are distinct. */
  predicate DistinctKeys(entries: seq<(string, ParamValue)>)
  {
    forall i, j :: 0 <= i < j < |entries| ==> entries[i].0 != entries[j].0
  }

  /** The keys of an object's entries. */
  function KeysOf(entries: seq<(string, ParamValue)>): set<string>
  {
    set e | e in entries :: e.0
  }

  /** Adding an entry adds its key. */
  lemma KeysOfSnoc(entries: seq<(string, ParamValue)>, e: (string, ParamValue))
    ensures KeysOf(entries + [e]) == KeysOf(entries) + {e.0}
  {
    var t := entries + [e];
    forall x | x in KeysOf(t)
      ensures x in KeysOf(entries) + {e.0}
    {
      var d :| d in t && d.0 == x;
      if d != e {
        assert d in entries;
      }
    }
    forall x | x in KeysOf(entries) + {e.0}
      ensures x in KeysOf(t)
    {
      if x == e.0 {
        assert e in t;
      } else {
        var d :| d in entries && d.0 == x;
        assert d in t;
      }
    }
  }

  /** What the query holds after the first `n` entries: the API key and those entries'
    * keys, each entry's value in text form, and the API key unless an entry replaced it. */
  predicate QueryCarries(apiKey: string, filter: seq<(string, ParamValue)>, n: nat, params: map<string, string>)
    requires n <= |filter|
  {
    params.Keys == {ApiKeyParam} + KeysOf(filter[..n])
    && (forall k :: 0 <= k < n ==> params[filter[k].0] == ToText(filter[k].1))
    && (ApiKeyParam !in KeysOf(filter[..n]) ==> params[ApiKeyParam] == apiKey)
  }

  /** Setting the next entry carries one entry more. */
  lemma QueryStep(apiKey: string, filter: seq<(string, ParamValue)>, i: nat, params: map<string, string>)
    requires DistinctKeys(filter) && i < |filter| && QueryCarries(apiKey, filter, i, params)
    ensures QueryCarries(apiKey, filter, i + 1, params[filter[i].0 := ToText(filter[i].1)])
  {
    assert filter[..i + 1] == filter[..i] + [filter[i]];
    KeysOfSnoc(filter[..i], filter[i]);
  }

  /** `getDiscoverMovies`: the query starts with the API key and then carries every entry
    * of the filter object, in text form. */
  method DiscoverQuery(apiKey: string, filter: seq<(string, ParamValue)>) returns (params: map<string, string>)
    requires DistinctKeys(filter)
    ensures params.Keys == {ApiKeyParam} + KeysOf(filter)
    ensures forall k :: 0 <= k < |filter| ==> params[filter[k].0] == ToText(filter[k].1)
    ensures ApiKeyParam !in KeysOf(filter) ==> params[ApiKeyParam] == apiKey
  {
    params := map[ApiKeyParam := apiKey];
    assert filter[..0] == [];
    var i := 0;
    while i < |filter|
      invariant 0 <= i <= |filter|
      invariant QueryCarries(apiKey, filter, i, params)
    {
      QueryStep(apiKey, filter, i, params);
      params := params[filter[i].0 := ToText(filter[i].1)];
      i := i + 1;
    }
    assert filter[..i] == filter;
  }
}
