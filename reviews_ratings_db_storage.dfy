/** `ReviewsRatingsDbStorage`: the `users_reviews_ratings` table, one score
    per (user, review) pair. */
module ReviewsRatingsDbStorage {
  import opened Schema

  /** `userReviewRatingExists(userId, reviewId)`. */
  function Exists(db: Database, userId: int, reviewId: int): (r: bool)
    reads db`ratings
  {
    RatingKey(userId, reviewId) in db.ratings
  }

  /** `create(userId, reviewId, score)`: inserts a new row; the pair is the
      table's key, so it must not be present yet. */
  method Create(db: Database, userId: int, reviewId: int, score: int)
    requires RatingKey(userId, reviewId) !in db.ratings
    modifies db`ratings
    ensures db.ratings == old(db.ratings)[RatingKey(userId, reviewId) := score]
    ensures Exists(db, userId, reviewId)
  {
    db.ratings := db.ratings[RatingKey(userId, reviewId) := score];
  }

  /** `update(userId, reviewId, score)`: changes the score of an existing
      row; without one nothing happens. */
  method Update(db: Database, userId: int, reviewId: int, score: int)
    modifies db`ratings
    ensures RatingKey(userId, reviewId) in old(db.ratings) ==>
      db.ratings == old(db.ratings)[RatingKey(userId, reviewId) := score]
    ensures RatingKey(userId, reviewId) !in old(db.ratings) ==> db.ratings == old(db.ratings)
  {
    var key := RatingKey(userId, reviewId);
    if key in db.ratings {
      db.ratings := db.ratings[key := score];
    }
  }

  /** `upsert(userId, reviewId, score)`: inserts the row or replaces its
      score. */
  method Upsert(db: Database, userId: int, reviewId: int, score: int)
    modifies db`ratings
    ensures db.ratings == old(db.ratings)[RatingKey(userId, reviewId) := score]
  {
    if Exists(db, userId, reviewId) {
      Update(db, userId, reviewId, score);
    } else {
      Create(db, userId, reviewId, score);
    }
  }

  /** `delete(userId, reviewId)`: removes that one row, if any. */
  method Delete(db: Database, userId: int, reviewId: int)
    modifies db`ratings
    ensures db.ratings == old(db.ratings) - {RatingKey(userId, reviewId)}
  {
    db.ratings := db.ratings - {RatingKey(userId, reviewId)};
  }

  /** The rows kept when those matching `drop` go. */
  function Without(ratings: map<RatingKey, int>, drop: set<RatingKey>): (r: map<RatingKey, int>)
  {
    map k | k in ratings && k !in drop :: ratings[k]
  }

  /** The rows a user gave. */
  function ByUser(ratings: map<RatingKey, int>, userId: int): set<RatingKey> {
    set k | k in ratings && k.userId == userId
  }

  /** The rows of one review. */
  function OfReview(ratings: map<RatingKey, int>, reviewId: int): set<RatingKey> {
    set k | k in ratings && k.reviewId == reviewId
  }

  /** The rows of the reviews written about one film. */
  function OfFilm(ratings: map<RatingKey, int>, reviews: map<int, ReviewRow>, filmId: int): set<RatingKey> {
    set k | k in ratings && k.reviewId in reviews && reviews[k.reviewId].filmId == filmId
  }

  /** `deleteByUserId(userId)`. */
  method DeleteByUserId(db: Database, userId: int)
    modifies db`ratings
    ensures db.ratings == Without(old(db.ratings), ByUser(old(db.ratings), userId))
    ensures forall k :: k in db.ratings <==> k in old(db.ratings) && k.userId != userId
  {
    db.ratings := Without(db.ratings, ByUser(db.ratings, userId));
  }

  /** `deleteByReviewId(reviewId)`. */
  method DeleteByReviewId(db: Database, reviewId: int)
    modifies db`ratings
    ensures db.ratings == Without(old(db.ratings), OfReview(old(db.ratings), reviewId))
    ensures forall k :: k in db.ratings <==> k in old(db.ratings) && k.reviewId != reviewId
  {
    db.ratings := Without(db.ratings, OfReview(db.ratings, reviewId));
  }

  /** `deleteByFilmId(filmId)`: removes the rows whose review is about the
      film. */
  method DeleteByFilmId(db: Database, filmId: int)
    modifies db`ratings
    ensures db.ratings == Without(old(db.ratings), OfFilm(old(db.ratings), db.reviews, filmId))
    ensures forall k :: k in db.ratings <==>
      k in old(db.ratings) && !(k.reviewId in db.reviews && db.reviews[k.reviewId].filmId == filmId)
  {
    db.ratings := Without(db.ratings, OfFilm(db.ratings, db.reviews, filmId));
  }
}
