/**
 * The review document (server/src/models/Review.ts): an owner, the movie (id, title,
 * optional poster), a required rating between 1 and 5, optional content of at most
 * 5000 characters, and the date the movie was watched (now, by default). Dates are
 * millisecond timestamps.
 */
module ReviewModel {
  import opened Js

  const MinRating := 1
  const MaxRating := 5
  const MaxContent := 5000

  /** A stored review; `id` doubles as the creation order. */
  datatype ReviewDoc = ReviewDoc(id: nat, owner: nat, tmdbId: int, movieTitle: string, posterPath: Option<string>,
                                 rating: int, content: Option<string>, watchedDate: nat)

  /** The schema's validators: the movie title is present, the rating in range, the content short enough. */
  predicate ReviewValid(r: ReviewDoc)
  {
    r.movieTitle != "" && MinRating <= r.rating <= MaxRating && (r.content.Some? ==> |r.content.value| <= MaxContent)
  }

  /** Validation before saving: a failure is a store error (no status code). */
  function ValidateReview(r: ReviewDoc): (e: Option<Thrown>)
    ensures e.None? <==> ReviewValid(r)
    ensures e.Some? ==> e.value.statusCode.None?
  {
    if ReviewValid(r) then None else Some(StoreError("Review validation failed"))
  }

  /** Every review is valid and has an id below the next one; ids increase along the collection. */
  predicate ReviewsValid(reviews: seq<ReviewDoc>, nextId: nat)
  {
    (forall i :: 0 <= i < |reviews| ==> reviews[i].id < nextId && ReviewValid(reviews[i]))
    && (forall i, j :: 0 <= i < j < |reviews| ==> reviews[i].id < reviews[j].id)
  }

  /** `findById`. */
  function FindReview(reviews: seq<ReviewDoc>, id: nat): (r: Option<nat>)
    ensures r.Some? ==> r.value < |reviews| && reviews[r.value].id == id
    ensures r.None? <==> forall k | 0 <= k < |reviews| :: reviews[k].id != id
  {
    FindIndex(reviews, (d: ReviewDoc) => d.id == id)
  }

  /** Saving a changed review: the stored review with the same id is replaced. It is the
    * review collection's copy of `ListModel.ReplaceById`: the two collections hold
    * different document types, and each store's proofs use their own. */
  function ReplaceReview(reviews: seq<ReviewDoc>, d: ReviewDoc): (r: seq<ReviewDoc>)
    ensures |r| == |reviews|
    ensures forall k | 0 <= k < |reviews| :: r[k] == if reviews[k].id == d.id then d else reviews[k]
  {
    seq(|reviews|, k requires 0 <= k < |reviews| => if reviews[k].id == d.id then d else reviews[k])
  }

  /** Replacing a review by a valid version with the same id keeps the invariant. */
  lemma ReplaceReviewKeepsValid(reviews: seq<ReviewDoc>, nextId: nat, d: ReviewDoc)
    requires ReviewsValid(reviews, nextId) && ReviewValid(d)
    requires exists k | 0 <= k < |reviews| :: reviews[k].id == d.id
    ensures ReviewsValid(ReplaceReview(reviews, d), nextId)
  {
    var r := ReplaceReview(reviews, d);
    assert forall k | 0 <= k < |r| :: r[k].id == reviews[k].id;
    forall i | 0 <= i < |r|
      ensures ReviewValid(r[i])
    {
      if reviews[i].id == d.id {
        assert r[i] == d;
      } else {
        assert r[i] == reviews[i];
      }
    }
  }
}
