/**
 * The review handlers (server/src/controllers/reviewController.ts) over the review
 * collection. The clock that supplies the default watched date is a parameter.
 */
module ReviewController {
  import opened Js
  import opened Query
  import opened ReviewModel

  /** The fields of a create request body. */
  datatype ReviewBody = ReviewBody(tmdbId: Option<int>, movieTitle: Option<string>, posterPath: Option<string>,
                                   rating: Option<int>, content: Option<string>, watchedDate: Option<nat>)

  /** The fields of an update request body. */
  datatype ReviewPatch = ReviewPatch(rating: Option<int>, content: Option<string>, watchedDate: Option<nat>)

  const PageSize: nat := 10
  const FeedDefault := "20"
  const MissingReviewFields := "Please provide tmdbId, movieTitle, and rating"
  const RatingOutOfRange := "Rating must be between 1 and 5"
  const InvalidMovieId := "Invalid movie ID"
  const UserIdNotProvided := "User ID not provided"
  const ReviewNotFound := "Review not found"
  const CannotUpdate := "Not authorized to update this review"
  const CannotDelete := "Not authorized to delete this review"
  const ValidationFailed := "Review validation failed"

  /** `x || fallback` for an optional date. */
  function OrDate(x: Option<nat>, fallback: nat): (d: nat)
    ensures x.Some? && x.value != 0 ==> d == x.value
    ensures !(x.Some? && x.value != 0) ==> d == fallback
  {
    if x.Some? && x.value != 0 then x.value else fallback
  }

  /** `createReview`: 400 when tmdbId, title or rating is falsy (a rating of 0 included),
    * then 400 when the rating is outside 1..5; the store refuses a review without an
    * owner or with too long a content; the watched date defaults to now. */
  function CreatedReview(nextId: nat, caller: Option<nat>, body: ReviewBody, now: nat): (r: Outcome<ReviewDoc>)
    ensures !(TruthyNum(body.tmdbId) && TruthyStr(body.movieTitle) && TruthyNum(body.rating))
            ==> r == Throw(Raise(400, MissingReviewFields))
    ensures (TruthyNum(body.tmdbId) && TruthyStr(body.movieTitle) && TruthyNum(body.rating)
             && !(MinRating <= body.rating.value <= MaxRating)) ==> r == Throw(Raise(400, RatingOutOfRange))
    ensures (TruthyNum(body.tmdbId) && TruthyStr(body.movieTitle) && TruthyNum(body.rating)
             && MinRating <= body.rating.value <= MaxRating) ==>
            (r.Ok? <==> caller.Some? && (body.content.Some? ==> |body.content.value| <= MaxContent))
            && (r.Throw? ==> r.error.statusCode.None?)
    ensures r.Ok? ==> ReviewValid(r.value)
                      && r.value == ReviewDoc(nextId, caller.value, body.tmdbId.value, body.movieTitle.value,
                                              body.posterPath, body.rating.value, body.content,
                                              OrDate(body.watchedDate, now))
  {
    if !(TruthyNum(body.tmdbId) && TruthyStr(body.movieTitle) && TruthyNum(body.rating)) then
      Throw(Raise(400, MissingReviewFields))
    else if body.rating.value < MinRating || body.rating.value > MaxRating then
      Throw(Raise(400, RatingOutOfRange))
    else if caller.None? then
      Throw(StoreError(ValidationFailed))
    else
      var d := ReviewDoc(nextId, caller.value, body.tmdbId.value, body.movieTitle.value, body.posterPath,
                         body.rating.value, body.content, OrDate(body.watchedDate, now));
      match ValidateReview(d)
      case Some(e) => Throw(e)
      case None => Ok(d)
  }

  /** Exactly the ratings 1 to 5 get past the handler's checks. */
  lemma RatingGate(rating: int, caller: nat, nextId: nat, now: nat)
    ensures var body := ReviewBody(Some(550), Some("Fight Club"), None, Some(rating), None, None);
            CreatedReview(nextId, Some(caller), body, now).Ok? <==> 1 <= rating <= 5
    ensures CreatedReview(nextId, Some(caller), ReviewBody(Some(550), Some("Fight Club"), None, Some(0), None, None), now)
            == Throw(Raise(400, MissingReviewFields))
  {
  }

  /** The review's movie filter `{ tmdbId }`. */
  function ForMovie(tmdbId: int): ReviewDoc -> bool
  {
    (d: ReviewDoc) => d.tmdbId == tmdbId
  }

  /** `getReviewsByMovie`: 400 for an id that is not a number, otherwise every review of
    * that movie in store order. */
  function GetReviewsByMovie(reviews: seq<ReviewDoc>, idParam: string): (r: Outcome<seq<ReviewDoc>>)
    ensures ParseInt(idParam).None? <==> r == Throw(Raise(400, InvalidMovieId))
    ensures r.Ok? ==> (forall k :: 0 <= k < |r.value| ==> r.value[k].tmdbId == ParseInt(idParam).value)
                      && (forall k :: 0 <= k < |reviews| && reviews[k].tmdbId == ParseInt(idParam).value
                                      ==> reviews[k] in r.value)
                      && multiset(r.value) <= multiset(reviews)
                      && r.value == Filter(reviews, ForMovie(ParseInt(idParam).value))
  {
    match ParseInt(idParam)
    case None => Throw(Raise(400, InvalidMovieId))
    case Some(n) =>
      FilterSubMultiset(reviews, ForMovie(n));
      Ok(Filter(reviews, ForMovie(n)))
  }

  /** The author filter `{ user: id }`. */
  function ByAuthor(owner: nat): ReviewDoc -> bool
  {
    (d: ReviewDoc) => d.owner == owner
  }

  /** `id || req.user?.id`: the path's user, else the caller. */
  function ReviewAuthor(pathId: Option<nat>, caller: Option<nat>): (a: Option<nat>)
    ensures pathId.Some? ==> a == pathId
    ensures pathId.None? ==> a == caller
  {
    if pathId.Some? then pathId else caller
  }

  /** `getReviewsByUser`: 400 when neither the path nor the caller names a user; otherwise
    * a page of ten of that user's reviews, newest first, and the pagination over all of them. */
  function GetReviewsByUser(reviews: seq<ReviewDoc>, pathId: Option<nat>, caller: Option<nat>,
                            pageQuery: Option<string>): (r: Outcome<Page<ReviewDoc>>)
    ensures ReviewAuthor(pathId, caller).None? ==> r == Throw(Raise(400, UserIdNotProvided))
    ensures ReviewAuthor(pathId, caller).Some? ==>
            (r.Ok? <==> PageParam(pageQuery).Some? && PageParam(pageQuery).value >= 1)
    ensures r.Ok? ==> var author := ReviewAuthor(pathId, caller).value;
                      |r.value.data| <= PageSize
                      && (forall k :: 0 <= k < |r.value.data| ==> r.value.data[k].owner == author)
                      && r.value.pagination.total == |Filter(reviews, ByAuthor(author))|
                      && r.value.pagination.total <= r.value.pagination.pages * PageSize
    ensures r.Ok? ==> var theirs := NewestFirst(reviews, ByAuthor(ReviewAuthor(pathId, caller).value));
                      var p := PageParam(pageQuery).value;
                      r.value.data == Window(theirs, (p - 1) * PageSize, PageSize)
                      && r.value.pagination == Pagination(|theirs|, p, PageSize, PageCount(|theirs|, PageSize))
  {
    var page := PageParam(pageQuery);
    match ReviewAuthor(pathId, caller)
    case None => Throw(Raise(400, UserIdNotProvided))
    case Some(author) =>
      match Skip(page, PageSize)
      case Throw(e) => Throw(e)
      case Ok(skip) =>
        var theirs := NewestFirst(reviews, ByAuthor(author));
        NewestFirstWindow(reviews, ByAuthor(author), skip, PageSize);
        Ok(Page(Window(theirs, skip, PageSize),
                Pagination(|theirs|, page.value, PageSize, PageCount(|theirs|, PageSize))))
  }

  /** A page of reviews of a well-formed collection is in strictly decreasing creation order. */
  lemma ReviewsByUserNewestFirst(reviews: seq<ReviewDoc>, nextId: nat, pathId: Option<nat>, caller: Option<nat>,
                                 pageQuery: Option<string>)
    requires ReviewsValid(reviews, nextId)
    requires GetReviewsByUser(reviews, pathId, caller, pageQuery).Ok?
    ensures var data := GetReviewsByUser(reviews, pathId, caller, pageQuery).value.data;
            forall i, j :: 0 <= i < j < |data| ==> data[i].id > data[j].id
  {
    var key := (d: ReviewDoc) => d.id;
    assert Increasing(reviews, key);
    NewestFirstSorted(reviews, ByAuthor(ReviewAuthor(pathId, caller).value), key);
    var p := PageParam(pageQuery).value;
    WindowKeepsDecreasing(NewestFirst(reviews, ByAuthor(ReviewAuthor(pathId, caller).value)),
                          (p - 1) * PageSize, PageSize, key);
  }

  /** `parseInt((req.query.limit as string) || '20', 10)`. */
  function FeedLimit(limitQuery: Option<string>): (n: Option<int>)
    ensures limitQuery.None? || limitQuery.value == "" ==> n == Some(20)
    ensures limitQuery.Some? && limitQuery.value != "" ==> n == ParseInt(limitQuery.value)
  {
    var q := OrStr(limitQuery, FeedDefault);
    assert !TruthyStr(limitQuery) ==> q == "20" && ParseInt(q) == Some(20) by {
      ParseIntTwenty();
    }
    ParseInt(q)
  }

  /** `getFeed`: every review, newest first, cut to the limit. The store reads a limit of 0
    * as no limit and a negative one by its magnitude, and refuses one that is not a number. */
  function GetFeed(reviews: seq<ReviewDoc>, limitQuery: Option<string>): (r: Outcome<seq<ReviewDoc>>)
    ensures r.Ok? <==> FeedLimit(limitQuery).Some?
    ensures r.Throw? ==> r.error.statusCode.None?
    ensures r.Ok? ==> var n := FeedLimit(limitQuery).value;
                      var m := if n < 0 then -n else n;
                      |r.value| == (if m == 0 then |reviews| else Min(m, |reviews|))
                      && forall k :: 0 <= k < |r.value| ==> r.value[k] == reviews[|reviews| - 1 - k]
  {
    match FeedLimit(limitQuery)
    case None => Throw(StoreError("limit must be a number"))
    case Some(n) =>
      var m := if n < 0 then -n else n;
      var all := Reverse(reviews);
      Ok(if m == 0 then all else all[..Min(m, |all|)])
  }

  /** Without a limit query the feed is the twenty newest reviews. */
  lemma FeedDefaultsToTwenty(reviews: seq<ReviewDoc>)
    ensures GetFeed(reviews, None).Ok?
    ensures |GetFeed(reviews, None).value| == Min(20, |reviews|)
  {
    ParseIntTwenty();
    assert FeedLimit(None) == Some(20);
  }

  /** `getReviewById`. */
  function GetReviewById(reviews: seq<ReviewDoc>, id: nat): (r: Outcome<ReviewDoc>)
    ensures r.Ok? <==> exists k | 0 <= k < |reviews| :: reviews[k].id == id
    ensures r.Ok? ==> r.value.id == id && r.value in reviews
    ensures r.Throw? ==> r.error == Raise(404, ReviewNotFound)
  {
    match FindReview(reviews, id)
    case None => Throw(Raise(404, ReviewNotFound))
    case Some(i) => Ok(reviews[i])
  }

  /** 404 for an unknown review, then 403 with the handler's message unless the caller wrote it. */
  function Authored(reviews: seq<ReviewDoc>, id: nat, caller: Option<nat>, forbidden: string): (r: Outcome<ReviewDoc>)
    ensures FindReview(reviews, id).None? ==> r == Throw(Raise(404, ReviewNotFound))
    ensures FindReview(reviews, id).Some? ==>
            var d := reviews[FindReview(reviews, id).value];
            (r.Ok? <==> caller == Some(d.owner))
            && (r.Ok? ==> r.value == d)
            && (r.Throw? ==> r.error == Raise(403, forbidden))
  {
    match FindReview(reviews, id)
    case None => Throw(Raise(404, ReviewNotFound))
    case Some(i) =>
      if caller != Some(reviews[i].owner) then Throw(Raise(403, forbidden)) else Ok(reviews[i])
  }

  /** `updateReview`: 404 and 403; then each of rating, content and watched date is replaced
    * only by a truthy new value. The handler does not check the rating's range; the store
    * does, when it saves, and refuses the whole update. */
  function UpdatedReview(reviews: seq<ReviewDoc>, id: nat, caller: Option<nat>, patch: ReviewPatch): (r: Outcome<ReviewDoc>)
    ensures Authored(reviews, id, caller, CannotUpdate).Throw? ==> r == Authored(reviews, id, caller, CannotUpdate)
    ensures Authored(reviews, id, caller, CannotUpdate).Ok? ==>
            var prev := Authored(reviews, id, caller, CannotUpdate).value;
            var d := prev.(rating := if TruthyNum(patch.rating) then patch.rating.value else prev.rating,
                          content := if TruthyStr(patch.content) then patch.content else prev.content,
                          watchedDate := OrDate(patch.watchedDate, prev.watchedDate));
            (r.Ok? <==> ReviewValid(d)) && (r.Ok? ==> r.value == d) && (r.Throw? ==> r.error.statusCode.None?)
  {
    match Authored(reviews, id, caller, CannotUpdate)
    case Throw(e) => Throw(e)
    case Ok(prev) =>
      var d := prev.(rating := if TruthyNum(patch.rating) then patch.rating.value else prev.rating,
                    content := if TruthyStr(patch.content) then patch.content else prev.content,
                    watchedDate := OrDate(patch.watchedDate, prev.watchedDate));
      match ValidateReview(d)
      case Some(e) => Throw(e)
      case None => Ok(d)
  }

  /** An update whose fields are all falsy leaves the review as it was. */
  lemma UpdateFalsyKeepsReview(reviews: seq<ReviewDoc>, nextId: nat, id: nat, caller: Option<nat>)
    requires ReviewsValid(reviews, nextId)
    requires Authored(reviews, id, caller, CannotUpdate).Ok?
    ensures UpdatedReview(reviews, id, caller, ReviewPatch(Some(0), Some(""), Some(0)))
            == Authored(reviews, id, caller, CannotUpdate)
  {
    var i := FindReview(reviews, id).value;
    assert ReviewValid(reviews[i]);
  }

  /** The handler does not range-check a new rating: one outside 1..5 is refused by the
    * store, so the client gets a 500 rather than the 400 that creation gives. */
  lemma UpdateOutOfRangeIsStoreError(reviews: seq<ReviewDoc>, id: nat, caller: Option<nat>, bad: int)
    requires Authored(reviews, id, caller, CannotUpdate).Ok?
    requires bad < MinRating || bad > MaxRating
    requires bad != 0
    ensures var r := UpdatedReview(reviews, id, caller, ReviewPatch(Some(bad), None, None));
            r.Throw? && r.error.statusCode.None?
  {
  }

  /** The review is gone after `deleteOne({ _id: id })`; every other review stays. */
  function OtherReview(id: nat): ReviewDoc -> bool
  {
    (d: ReviewDoc) => d.id != id
  }

  /** Creating a review keeps the collection's invariant. */
  lemma CreateReviewKeepsValid(reviews: seq<ReviewDoc>, nextId: nat, caller: Option<nat>, body: ReviewBody, now: nat)
    requires ReviewsValid(reviews, nextId) && CreatedReview(nextId, caller, body, now).Ok?
    ensures ReviewsValid(reviews + [CreatedReview(nextId, caller, body, now).value], nextId + 1)
  {
    var s := reviews + [CreatedReview(nextId, caller, body, now).value];
    forall i, j | 0 <= i < j < |s|
      ensures s[i].id < s[j].id
    {
      if j == |reviews| {
        assert s[i] == reviews[i];
      }
    }
  }

  /** Deleting a review keeps the collection's invariant. */
  lemma DeleteReviewKeepsValid(reviews: seq<ReviewDoc>, nextId: nat, id: nat)
    requires ReviewsValid(reviews, nextId)
    ensures ReviewsValid(Filter(reviews, OtherReview(id)), nextId)
  {
    var r := Filter(reviews, OtherReview(id));
    FilterSubMultiset(reviews, OtherReview(id));
    forall k | 0 <= k < |r|
      ensures r[k].id < nextId && ReviewValid(r[k])
    {
      var m :| 0 <= m < |reviews| && reviews[m] == r[k];
    }
    var key := (d: ReviewDoc) => d.id;
    assert Increasing(reviews, key);
    FilterIncreasing(reviews, OtherReview(id), key);
  }

  /** The review collection. */
  class ReviewStore {
    var reviews: seq<ReviewDoc>
    var nextId: nat

    predicate Valid()
      reads this
    {
      ReviewsValid(reviews, nextId)
    }

    constructor ()
      ensures Valid() && reviews == []
    {
      reviews := [];
      nextId := 0;
    }

    /** `createReview`: the new review is appended on success. */
    method CreateReview(caller: Option<nat>, body: ReviewBody, now: nat) returns (r: Outcome<ReviewDoc>)
      requires Valid()
      modifies this
      ensures Valid()
      ensures r == CreatedReview(old(nextId), caller, body, now)
      ensures r.Ok? ==> reviews == old(reviews) + [r.value] && nextId == old(nextId) + 1
      ensures r.Throw? ==> reviews == old(reviews) && nextId == old(nextId)
    {
      r := CreatedReview(nextId, caller, body, now);
      if r.Ok? {
        CreateReviewKeepsValid(reviews, nextId, caller, body, now);
        reviews := reviews + [r.value];
        nextId := nextId + 1;
      }
    }

    /** `updateReview`: the changed review is saved in place of the old one. */
    method UpdateReview(id: nat, caller: Option<nat>, patch: ReviewPatch) returns (r: Outcome<ReviewDoc>)
      requires Valid()
      modifies this
      ensures Valid() && nextId == old(nextId)
      ensures r == UpdatedReview(old(reviews), id, caller, patch)
      ensures reviews == if r.Ok? then ReplaceReview(old(reviews), r.value) else old(reviews)
    {
      r := UpdatedReview(reviews, id, caller, patch);
      if r.Ok? {
        ReplaceReviewKeepsValid(reviews, nextId, r.value);
        reviews := ReplaceReview(reviews, r.value);
      }
    }

    /** `deleteReview`: 404 and 403, then the review is removed. */
    method DeleteReview(id: nat, caller: Option<nat>) returns (r: Outcome<ReviewDoc>)
      requires Valid()
      modifies this
      ensures Valid() && nextId == old(nextId)
      ensures r == Authored(old(reviews), id, caller, CannotDelete)
      ensures reviews == if r.Ok? then Filter(old(reviews), OtherReview(id)) else old(reviews)
    {
      r := Authored(reviews, id, caller, CannotDelete);
      if r.Ok? {
        DeleteReviewKeepsValid(reviews, nextId, id);
        reviews := Filter(reviews, OtherReview(id));
      }
    }
  }
}
