/**
 * What the movie page (client components/movie-details/movie-details.ts) takes from the
 * credits and videos of a movie: the top of the cast, the director, up to three writers
 * and the trailer; and the page's image URLs.
 */
module MovieDetails {
  import opened Js
  import opened Query
  import opened TmdbService

  datatype CastMember = CastMember(id: int, name: string, profilePath: Option<string>)
  datatype CrewMember = CrewMember(name: string, job: string)
  datatype Video = Video(key: string, site: string, kind: string, official: bool)

  /** What the page shows once the three requests have answered. */
  datatype Extracted = Extracted(cast: seq<CastMember>, director: string, writers: seq<string>,
                                 trailerKey: Option<string>)

  const TopCastSize: nat := 10
  const MaxWriters: nat := 3
  const ProfilePlaceholder := "https://via.placeholder.com/185x278?text=No+Image"
  const EmbedBase := "https://www.youtube.com/embed/"
  const EmbedOptions := "?autoplay=0&controls=1&rel=0"

  /** `cast.slice(0, 10)`. */
  function TopCast(cast: seq<CastMember>): (r: seq<CastMember>)
    ensures |r| == Min(TopCastSize, |cast|)
    ensures forall k :: 0 <= k < |r| ==> r[k] == cast[k]
  {
    cast[..Min(TopCastSize, |cast|)]
  }

  predicate IsDirector(c: CrewMember)
  {
    c.job == "Director"
  }

  /** The name of the first crew member who directed, or "". */
  function Director(crew: seq<CrewMember>): (d: string)
    ensures (forall k :: 0 <= k < |crew| ==> !IsDirector(crew[k])) ==> d == ""
    ensures (exists k :: 0 <= k < |crew| && IsDirector(crew[k])) ==>
            exists k :: 0 <= k < |crew| && IsDirector(crew[k]) && d == crew[k].name
                        && forall m :: 0 <= m < k ==> !IsDirector(crew[m])
  {
    match FindIndex(crew, IsDirector)
    case None => ""
    case Some(i) => crew[i].name
  }

  predicate IsWriter(c: CrewMember)
  {
    c.job == "Writer" || c.job == "Screenplay" || c.job == "Story"
  }

  /** `crew.filter(isWriter).map(w => w.name)`. */
  function WriterNames(crew: seq<CrewMember>): (names: seq<string>)
    ensures |names| == |Filter(crew, IsWriter)|
    ensures forall i :: 0 <= i < |names| ==> names[i] == Filter(crew, IsWriter)[i].name
    ensures forall x :: x in names <==> exists k :: 0 <= k < |crew| && IsWriter(crew[k]) && crew[k].name == x
  {
    var writers := Filter(crew, IsWriter);
    FilterSubMultiset(crew, IsWriter);
    var names := seq(|writers|, i requires 0 <= i < |writers| => writers[i].name);
    forall x | x in names
      ensures exists k :: 0 <= k < |crew| && IsWriter(crew[k]) && crew[k].name == x
    {
      var i :| 0 <= i < |names| && names[i] == x;
      assert writers[i] in crew && IsWriter(writers[i]);
      var k :| 0 <= k < |crew| && crew[k] == writers[i];
    }
    forall k | 0 <= k < |crew| && IsWriter(crew[k])
      ensures crew[k].name in names
    {
      var m :| 0 <= m < |writers| && writers[m] == crew[k];
      assert names[m] == crew[k].name;
    }
    names
  }

  /** `[...new Set(s)]`: each value once, where it first occurs. */
  function Dedup(s: seq<string>): (r: seq<string>)
    ensures forall i, j :: 0 <= i < j < |r| ==> r[i] != r[j]
    ensures forall x :: x in r <==> x in s
    ensures |r| <= |s|
  {
    if s == [] then []
    else
      var init := s[..|s| - 1];
      var x := s[|s| - 1];
      assert forall y :: y in s <==> y in init || y == x;
      if x in init then Dedup(init) else Dedup(init) + [x]
  }

  /** Where a value first occurs. */
  function FirstIndex(s: seq<string>, x: string): (i: nat)
    requires x in s
    ensures i < |s| && s[i] == x && forall k :: 0 <= k < i ==> s[k] != x
  {
    if s[0] == x then 0 else 1 + FirstIndex(s[1..], x)
  }

  /** The set keeps the values in the order of their first occurrence. */
  lemma {:induction false} DedupKeepsFirstOrder(s: seq<string>)
    ensures forall i, j :: 0 <= i < j < |Dedup(s)| ==> FirstIndex(s, Dedup(s)[i]) < FirstIndex(s, Dedup(s)[j])
  {
    if s != [] {
      var init := s[..|s| - 1];
      var x := s[|s| - 1];
      assert s == init + [x];
      DedupKeepsFirstOrder(init);
      var r := Dedup(s);
      var ri := Dedup(init);
      forall y | y in init
        ensures FirstIndex(s, y) == FirstIndex(init, y)
      {
        FirstIndexOfPrefix(init, x, y);
      }
      forall i, j | 0 <= i < j < |r|
        ensures FirstIndex(s, r[i]) < FirstIndex(s, r[j])
      {
        assert r[i] == ri[i] && r[i] in init;
        assert FirstIndex(s, r[i]) == FirstIndex(init, r[i]) < |init|;
        if j < |ri| {
          assert r[j] == ri[j] && r[j] in init;
          assert FirstIndex(init, ri[i]) < FirstIndex(init, ri[j]);
          assert FirstIndex(s, r[j]) == FirstIndex(init, r[j]);
        } else {
          assert r[j] == x && x !in init;
          assert FirstIndex(s, x) == |init|;
        }
      }
    }
  }

  /** Appending a value does not move the first occurrence of an earlier one. */
  lemma {:induction false} FirstIndexOfPrefix(s: seq<string>, x: string, y: string)
    requires y in s
    ensures FirstIndex(s + [x], y) == FirstIndex(s, y)
  {
    if s[0] != y {
      assert (s + [x])[1..] == s[1..] + [x];
      FirstIndexOfPrefix(s[1..], x, y);
    }
  }

  /** The writers: distinct names of crew who wrote, screenplay or story, at most three,
    * in the order they first appear. */
  function Writers(crew: seq<CrewMember>): (w: seq<string>)
    ensures |w| == Min(MaxWriters, |Dedup(WriterNames(crew))|)
    ensures forall k :: 0 <= k < |w| ==> w[k] == Dedup(WriterNames(crew))[k]
    ensures forall i, j :: 0 <= i < j < |w| ==> w[i] != w[j]
    ensures forall x :: x in w ==> exists k :: 0 <= k < |crew| && IsWriter(crew[k]) && crew[k].name == x
  {
    var d := Dedup(WriterNames(crew));
    var w := d[..Min(MaxWriters, |d|)];
    assert forall x :: x in w ==> x in d;
    w
  }

  predicate OfficialTrailer(v: Video)
  {
    v.kind == "Trailer" && v.site == "YouTube" && v.official
  }

  predicate YouTubeClip(v: Video)
  {
    v.site == "YouTube" && (v.kind == "Trailer" || v.kind == "Teaser")
  }

  /** The trailer's key: the first official YouTube trailer, else the first YouTube trailer
    * or teaser, else none. */
  function TrailerKey(videos: seq<Video>): (k: Option<string>)
    ensures k.None? <==> forall i :: 0 <= i < |videos| ==> !YouTubeClip(videos[i])
    ensures k.Some? ==> exists i :: 0 <= i < |videos| && YouTubeClip(videos[i]) && videos[i].key == k.value
    ensures (exists i :: 0 <= i < |videos| && OfficialTrailer(videos[i])) ==>
            exists i :: 0 <= i < |videos| && OfficialTrailer(videos[i]) && k == Some(videos[i].key)
                        && forall m :: 0 <= m < i ==> !OfficialTrailer(videos[m])
  {
    match FindIndex(videos, OfficialTrailer)
    case Some(i) => Some(videos[i].key)
    case None =>
      match FindIndex(videos, YouTubeClip)
      case Some(i) => Some(videos[i].key)
      case None => None
  }

  /** Without an official trailer, the first YouTube trailer or teaser is taken. */
  lemma TrailerFallsBackToFirstClip(videos: seq<Video>, i: nat)
    requires forall m :: 0 <= m < |videos| ==> !OfficialTrailer(videos[m])
    requires i < |videos| && YouTubeClip(videos[i]) && forall m :: 0 <= m < i ==> !YouTubeClip(videos[m])
    ensures TrailerKey(videos) == Some(videos[i].key)
  {
  }

  /** The success branch of `loadMovieDetails`. */
  function Extract(cast: seq<CastMember>, crew: seq<CrewMember>, videos: seq<Video>): (e: Extracted)
    ensures |e.cast| <= TopCastSize && |e.writers| <= MaxWriters
    ensures e.trailerKey.None? <==> forall i :: 0 <= i < |videos| ==> !YouTubeClip(videos[i])
    ensures e.cast == TopCast(cast) && e.director == Director(crew) && e.writers == Writers(crew)
            && e.trailerKey == TrailerKey(videos)
  {
    Extracted(TopCast(cast), Director(crew), Writers(crew), TrailerKey(videos))
  }

  /** `getProfileImageUrl`: the w185 image, or the 185x278 placeholder. */
  function ProfileImageUrl(path: Option<string>): (url: string)
    ensures TruthyStr(path) ==> url == ImageUrl("w185", path.value)
    ensures !TruthyStr(path) ==> url == ProfilePlaceholder
  {
    if TruthyStr(path) then ImageBase + "/w185" + path.value else ProfilePlaceholder
  }

  /** The page's poster: the w500 image, else the poster placeholder. */
  function DetailsPosterUrl(movie: Option<Movie>): (url: string)
    ensures url == PosterUrl(if movie.Some? then movie.value.posterPath else None, W500)
  {
    if movie.Some? && TruthyStr(movie.value.posterPath) then PosterUrl(movie.value.posterPath, W500)
    else PosterPlaceholder
  }

  /** The page's backdrop: the w1280 image, else the backdrop placeholder. */
  function DetailsBackdropUrl(movie: Option<Movie>): (url: string)
    ensures url == BackdropUrl(if movie.Some? then movie.value.backdropPath else None, W1280)
  {
    if movie.Some? && TruthyStr(movie.value.backdropPath) then BackdropUrl(movie.value.backdropPath, W1280)
    else BackdropPlaceholder
  }

  /** `getYouTubeEmbedUrl`. */
  function YouTubeEmbedUrl(key: string): (url: string)
    ensures |url| == |EmbedBase| + |key| + |EmbedOptions|
    ensures url[..|EmbedBase|] == EmbedBase && url[|EmbedBase|..|EmbedBase| + |key|] == key
  {
    EmbedBase + key + EmbedOptions
  }
}
