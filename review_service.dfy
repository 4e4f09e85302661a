/** `ReviewService`: argument defaulting and the id check in front of the
    review storage. Liking and disliking are undone by one and the same
    operation, whichever score the user gave. */
module ReviewService {
  import opened Wrappers
  import opened Errors
  import opened Model
  import opened Schema
  import opened Collections
  import ReviewDbStorage

  /** `DEFAULT_REVIEWS_COUNT`. */
  const DefaultReviewsCount: nat := 10

  /** `getAll(filmId, count)`: ten reviews when no count is given. */
  function GetAll(db: Database, filmId: Option<int>, count: Option<nat>): (r: seq<Review>)
    reads db`reviews, db`ratings
    ensures var limit := if count.Some? then count.value else DefaultReviewsCount;
      |r| == Min(limit, |ReviewDbStorage.Selected(db.reviews, filmId)|)
    ensures count.None? ==> |r| == Min(10, |ReviewDbStorage.Selected(db.reviews, filmId)|)
    ensures Distinct(r)
    ensures forall i, j :: 0 <= i < j < |r| ==> r[i].useful >= r[j].useful
    ensures forall x :: x in r ==>
      x.reviewId.Some? && x.reviewId.value in ReviewDbStorage.Selected(db.reviews, filmId)
  {
    ReviewDbStorage.GetAll(db, filmId, if count.Some? then count.value else DefaultReviewsCount)
  }

  /** `getById(id)`. */
  function GetById(db: Database, id: int): (r: Result<Review, Error>)
    reads db`reviews, db`ratings
    ensures r.Fail? <==> id !in db.reviews
    ensures r.Fail? ==> r.error == NotFound(ReviewEntity, id)
    ensures r.Ok? ==> r.value.reviewId == Some(id) && r.value.useful == ReviewDbStorage.Useful(db.ratings, id)
  {
    ReviewDbStorage.GetById(db, id)
  }

  /** `create(review)`. */
  method Create(db: Database, review: Review, now: int) returns (r: Result<Review, Error>)
    modifies db`reviews, db`feed
    ensures r.Ok? <==> old(review.userId in db.users && review.filmId in db.films)
    ensures old(review.userId !in db.users) ==> r == Fail(NotFound(UserEntity, review.userId))
    ensures r.Fail? ==> db.reviews == old(db.reviews) && db.feed == old(db.feed)
    ensures r.Ok? ==>
      r.value.reviewId.Some? && r.value.reviewId.value !in old(db.reviews) &&
      r.value.reviewId.value in db.reviews && |db.feed| == |old(db.feed)| + 1
  {
    r := ReviewDbStorage.Create(db, review, now);
  }

  /** `update(review)`: a review without an id is refused before the
      storage is asked. */
  method Update(db: Database, review: Review, now: int) returns (r: Result<Review, Error>)
    modifies db`reviews, db`feed
    ensures review.reviewId.None? ==> r == Fail(Validation(IdRequired))
    ensures review.reviewId.Some? && review.reviewId.value !in old(db.reviews) ==>
      r == Fail(NotFound(ReviewEntity, review.reviewId.value))
    ensures r.Fail? ==> db.reviews == old(db.reviews) && db.feed == old(db.feed)
    ensures r.Ok? ==>
      review.reviewId.Some? &&
      var id := review.reviewId.value;
      var before := old(db.reviews[id]);
      db.reviews == old(db.reviews)[id := before.(content := review.content, isPositive := review.isPositive)] &&
      r.value == ReviewDbStorage.ReviewAt(db, id)
  {
    if review.reviewId.None? {
      return Fail(Validation(IdRequired));
    }
    r := ReviewDbStorage.Update(db, review, now);
  }

  /** `delete(reviewId)`. */
  method Delete(db: Database, reviewId: int, now: int) returns (r: Outcome<Error>)
    modifies db`ratings, db`feed, db`reviews
    ensures r.Pass? <==> reviewId in old(db.reviews)
    ensures r.Failure? ==> db.ratings == old(db.ratings) && db.feed == old(db.feed) && db.reviews == old(db.reviews)
    ensures r.Pass? ==>
      db.reviews == old(db.reviews) - {reviewId} &&
      (forall k :: k in db.ratings <==> k in old(db.ratings) && k.reviewId != reviewId)
    ensures old(ReviewDbStorage.RatingsReferenceReviews(db)) ==> ReviewDbStorage.RatingsReferenceReviews(db)
  {
    r := ReviewDbStorage.Delete(db, reviewId, now);
  }

  /** `addLike(reviewId, userId)`. */
  method AddLike(db: Database, reviewId: int, userId: int) returns (r: Outcome<Error>)
    modifies db`ratings
    ensures r.Pass? <==> old(reviewId in db.reviews && userId in db.users)
    ensures r.Failure? ==> db.ratings == old(db.ratings)
    ensures r.Pass? ==> db.ratings == old(db.ratings)[RatingKey(userId, reviewId) := ReviewDbStorage.LikeScore]
  {
    r := ReviewDbStorage.AddLike(db, reviewId, userId);
  }

  /** `addDislike(reviewId, userId)`. */
  method AddDislike(db: Database, reviewId: int, userId: int) returns (r: Outcome<Error>)
    modifies db`ratings
    ensures r.Pass? <==> old(reviewId in db.reviews && userId in db.users)
    ensures r.Failure? ==> db.ratings == old(db.ratings)
    ensures r.Pass? ==> db.ratings == old(db.ratings)[RatingKey(userId, reviewId) := ReviewDbStorage.DislikeScore]
  {
    r := ReviewDbStorage.AddDislike(db, reviewId, userId);
  }

  /** `deleteLike(reviewId, userId)`: removes the user's score whether it
      was a like or a dislike. */
  method DeleteLike(db: Database, reviewId: int, userId: int) returns (r: Outcome<Error>)
    modifies db`ratings
    ensures r.Pass? <==> old(reviewId in db.reviews && userId in db.users && RatingKey(userId, reviewId) in db.ratings)
    ensures r.Failure? ==> db.ratings == old(db.ratings)
    ensures r.Pass? ==> db.ratings == old(db.ratings) - {RatingKey(userId, reviewId)}
  {
    r := ReviewDbStorage.DeleteReviewRating(db, reviewId, userId);
  }

  /** `deleteDislike(reviewId, userId)`: the same operation as
      `deleteLike`. */
  method DeleteDislike(db: Database, reviewId: int, userId: int) returns (r: Outcome<Error>)
    modifies db`ratings
    ensures r.Pass? <==> old(reviewId in db.reviews && userId in db.users && RatingKey(userId, reviewId) in db.ratings)
    ensures r.Failure? ==> db.ratings == old(db.ratings)
    ensures r.Pass? ==> db.ratings == old(db.ratings) - {RatingKey(userId, reviewId)}
  {
    r := ReviewDbStorage.DeleteReviewRating(db, reviewId, userId);
  }
}
