/**
 * The review dialog (client components/review-modal/review-modal.ts): the star rating,
 * the submit guard and the review it emits, and the reset on cancel. The form's content
 * control holds a string, or null once the form has been reset; the watched date is kept
 * as the text of the date input.
 */
module ReviewModal {
  import opened Js

  /** The review the dialog emits. */
  datatype ReviewRequest = ReviewRequest(tmdbId: int, movieTitle: string, posterPath: string,
                                         rating: int, content: string, watchedDate: string)

  const RatingOrReview := "Please add a rating or review"

  /** The guard of `onSubmit` as written: no rating and a content string that trims to
    * nothing. A null content (after a reset) makes `value?.trim()` undefined, which is not
    * `''`, so the guard lets it through. */
  predicate SubmitBlockedAsWritten(rating: int, content: Option<string>)
  {
    rating == 0 && content.Some? && Trim(content.value) == ""
  }

  /** The guard as intended: no rating and no text, a null content counting as empty. */
  predicate SubmitBlocked(rating: int, content: Option<string>)
  {
    rating == 0 && Trim(OrStr(content, "")) == ""
  }

  /** The emitted review: the rating defaults to 1 and the content to the empty string. */
  function Payload(tmdbId: int, movieTitle: string, posterPath: string, rating: int,
                   content: Option<string>, watchedDate: string): (r: ReviewRequest)
    ensures r.rating == if rating > 0 then rating else 1
    ensures TruthyStr(content) ==> r.content == content.value
    ensures !TruthyStr(content) ==> r.content == ""
    ensures r.tmdbId == tmdbId && r.movieTitle == movieTitle && r.posterPath == posterPath
            && r.watchedDate == watchedDate
  {
    ReviewRequest(tmdbId, movieTitle, posterPath, if rating > 0 then rating else 1,
                  OrStr(content, ""), watchedDate)
  }

  /** What `onSubmit` as written emits. */
  function SubmitAsWritten(tmdbId: int, movieTitle: string, posterPath: string, rating: int,
                           content: Option<string>, watchedDate: string): (r: Option<ReviewRequest>)
    ensures r.None? <==> SubmitBlockedAsWritten(rating, content)
    ensures r.Some? ==> r.value == Payload(tmdbId, movieTitle, posterPath, rating, content, watchedDate)
  {
    if SubmitBlockedAsWritten(rating, content) then None
    else Some(Payload(tmdbId, movieTitle, posterPath, rating, content, watchedDate))
  }

  /** As written, a dialog that was cancelled and opened again (rating 0, content null)
    * emits a review with neither a rating nor text, rated 1 by default. */
  lemma EmptyReviewAfterReset(tmdbId: int, movieTitle: string, posterPath: string, watchedDate: string)
    ensures SubmitAsWritten(tmdbId, movieTitle, posterPath, 0, None, watchedDate)
            == Some(ReviewRequest(tmdbId, movieTitle, posterPath, 1, "", watchedDate))
  {
  }

  /** The intended guard blocks exactly a missing rating together with missing or blank
    * text. */
  lemma SubmitBlockedIffNothingGiven(rating: int, content: Option<string>)
    ensures SubmitBlocked(rating, content) <==>
            rating == 0 && (content.None? || forall i :: 0 <= i < |content.value| ==> IsSpace(content.value[i]))
  {
    TrimEmptyIffBlank(OrStr(content, ""));
  }

  /** The intended guard differs from the written one only on a null content. */
  lemma GuardsAgreeOnText(rating: int, content: string)
    ensures SubmitBlocked(rating, Some(content)) == SubmitBlockedAsWritten(rating, Some(content))
  {
  }

  class Dialog {
    var tmdbId: int
    var movieTitle: string
    var posterPath: string
    var rating: int
    var isSubmitting: bool
    var errorMessage: string
    var toggleListDropdown: bool
    var content: Option<string>
    var watchedDate: string

    /** A fresh dialog: no rating, empty content, today's date. */
    constructor (tmdbId: int, movieTitle: string, posterPath: string, today: string)
      ensures this.tmdbId == tmdbId && this.movieTitle == movieTitle && this.posterPath == posterPath
      ensures rating == 0 && !isSubmitting && errorMessage == "" && !toggleListDropdown
      ensures content == Some("") && watchedDate == today
    {
      this.tmdbId, this.movieTitle, this.posterPath := tmdbId, movieTitle, posterPath;
      rating, isSubmitting, errorMessage, toggleListDropdown := 0, false, "", false;
      content, watchedDate := Some(""), today;
    }

    /** `setRating`. */
    method SetRating(value: int)
      modifies this
      ensures rating == value
      ensures content == old(content) && errorMessage == old(errorMessage) && isSubmitting == old(isSubmitting)
      ensures tmdbId == old(tmdbId) && movieTitle == old(movieTitle) && posterPath == old(posterPath)
      ensures watchedDate == old(watchedDate) && toggleListDropdown == old(toggleListDropdown)
    {
      rating := value;
    }

    /** `clearRating`. */
    method ClearRating()
      modifies this
      ensures rating == 0
      ensures content == old(content) && errorMessage == old(errorMessage) && isSubmitting == old(isSubmitting)
      ensures tmdbId == old(tmdbId) && movieTitle == old(movieTitle) && posterPath == old(posterPath)
      ensures watchedDate == old(watchedDate) && toggleListDropdown == old(toggleListDropdown)
    {
      rating := 0;
    }

    /** `onSubmit`, with the intended guard: without a rating and without text the dialog
      * shows an error and emits nothing; otherwise it is submitting and emits the review,
      * which then always has a rating of its own or some text. */
    method OnSubmit() returns (review: Option<ReviewRequest>)
      modifies this
      ensures review.None? <==> SubmitBlocked(old(rating), old(content))
      ensures review.None? ==> errorMessage == RatingOrReview && isSubmitting == old(isSubmitting)
      ensures review.Some? ==> isSubmitting && errorMessage == ""
                               && review.value == Payload(tmdbId, movieTitle, posterPath, rating, content, watchedDate)
      ensures review.Some? ==> old(rating) != 0 || exists i :: 0 <= i < |review.value.content| && !IsSpace(review.value.content[i])
      ensures rating == old(rating) && content == old(content) && watchedDate == old(watchedDate)
      ensures toggleListDropdown == old(toggleListDropdown)
      ensures tmdbId == old(tmdbId) && movieTitle == old(movieTitle) && posterPath == old(posterPath)
    {
      if SubmitBlocked(rating, content) {
        errorMessage := RatingOrReview;
        return None;
      }
      SubmitBlockedIffNothingGiven(rating, content);
      isSubmitting := true;
      errorMessage := "";
      review := Some(Payload(tmdbId, movieTitle, posterPath, rating, content, watchedDate));
    }

    /** `onCancel`: emits `cancelled`, then resets the dialog; the form reset leaves the
      * content null and the date today's. */
    method OnCancel(today: string)
      modifies this
      ensures rating == 0 && errorMessage == "" && !isSubmitting && !toggleListDropdown
      ensures content == None && watchedDate == today
      ensures tmdbId == old(tmdbId) && movieTitle == old(movieTitle) && posterPath == old(posterPath)
    {
      rating := 0;
      errorMessage := "";
      isSubmitting := false;
      toggleListDropdown := false;
      content := None;
      watchedDate := today;
    }
  }

  /** With the written guard, submitting right after a cancel emits an empty review; with
    * the intended one it shows the error instead. */
  method SubmitAfterCancel(d: Dialog, today: string) returns (review: Option<ReviewRequest>)
    modifies d
    ensures review.None? && d.errorMessage == RatingOrReview
    ensures SubmitAsWritten(d.tmdbId, d.movieTitle, d.posterPath, d.rating, d.content, d.watchedDate).Some?
  {
    d.OnCancel(today);
    review := d.OnSubmit();
    EmptyReviewAfterReset(d.tmdbId, d.movieTitle, d.posterPath, d.watchedDate);
  }
}
