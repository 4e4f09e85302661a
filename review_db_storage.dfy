/** `ReviewDbStorage`: the `reviews` table, its ratings ledger and the feed
    events the review lifecycle writes. A review's `useful` score is not
    stored: it is `COALESCE(SUM(score), 0)` over the review's ratings. */
module ReviewDbStorage {
  import opened Wrappers
  import opened Errors
  import opened Model
  import opened Schema
  import opened Collections
  import UserDbStorage
  import FilmDbStorage
  import FeedDbStorage
  import ReviewsRatingsDbStorage

  /** `REVIEW_LIKE_SCORE` and `REVIEW_DISLIKE_SCORE`. */
  const LikeScore := 1
  const DislikeScore := -1

  // ---------------------------------------------------------------------
  // The useful aggregate

  /** The users who rated a review. */
  function Raters(ratings: map<RatingKey, int>, reviewId: int): (s: set<int>)
    ensures forall u :: u in s <==> RatingKey(u, reviewId) in ratings
  {
    var s := set k | k in ratings && k.reviewId == reviewId :: k.userId;
    assert forall u :: RatingKey(u, reviewId) in ratings ==> u in s by {
      forall u | RatingKey(u, reviewId) in ratings ensures u in s {
        var k := RatingKey(u, reviewId);
        assert k in ratings && k.reviewId == reviewId;
      }
    }
    s
  }

  /** A review's scores, by rating user. */
  function Scores(ratings: map<RatingKey, int>, reviewId: int): (m: map<int, int>)
    ensures forall u :: u in m <==> RatingKey(u, reviewId) in ratings
    ensures forall u :: u in m ==> m[u] == ratings[RatingKey(u, reviewId)]
  {
    map u | u in Raters(ratings, reviewId) :: ratings[RatingKey(u, reviewId)]
  }

  /** `COALESCE(SUM(urr.score), 0)` for one review. */
  function Useful(ratings: map<RatingKey, int>, reviewId: int): int {
    MapSum(Scores(ratings, reviewId))
  }

  /** The score a user gave a review, 0 for none. */
  function ScoreOf(ratings: map<RatingKey, int>, userId: int, reviewId: int): int {
    if RatingKey(userId, reviewId) in ratings then ratings[RatingKey(userId, reviewId)] else 0
  }

  /** Every stored score is a like or a dislike. */
  predicate SignedScores(ratings: map<RatingKey, int>) {
    forall k :: k in ratings ==> ratings[k] == LikeScore || ratings[k] == DislikeScore
  }

  /** A review nobody rated is worth 0. */
  lemma UsefulUnrated(ratings: map<RatingKey, int>, reviewId: int)
    requires forall k :: k in ratings ==> k.reviewId != reviewId
    ensures Useful(ratings, reviewId) == 0
  {
    assert Scores(ratings, reviewId) == map[];
  }

  lemma ScoresAfterUpsert(ratings: map<RatingKey, int>, userId: int, reviewId: int, score: int)
    ensures Scores(ratings[RatingKey(userId, reviewId) := score], reviewId) == Scores(ratings, reviewId)[userId := score]
  {
    var after := ratings[RatingKey(userId, reviewId) := score];
    var a := Scores(after, reviewId);
    var b := Scores(ratings, reviewId)[userId := score];
    forall u ensures u in a <==> u in b {
      assert u in a <==> RatingKey(u, reviewId) in after;
    }
    forall u | u in a ensures a[u] == b[u] {
      if u != userId {
        assert RatingKey(u, reviewId) != RatingKey(userId, reviewId);
      }
    }
    assert a == b;
  }

  lemma ScoresOfOther(ratings: map<RatingKey, int>, after: map<RatingKey, int>, reviewId: int)
    requires forall k: RatingKey :: k.reviewId == reviewId ==> (k in after <==> k in ratings)
    requires forall k: RatingKey :: k.reviewId == reviewId && k in after ==> after[k] == ratings[k]
    ensures Scores(after, reviewId) == Scores(ratings, reviewId)
  {
    var a := Scores(after, reviewId);
    var b := Scores(ratings, reviewId);
    assert a.Keys == b.Keys;
    assert forall u :: u in a ==> a[u] == b[u] by {
      forall u | u in a ensures a[u] == b[u] {
        assert RatingKey(u, reviewId).reviewId == reviewId;
      }
    }
  }

  /** An upsert changes the rated review's sum by the difference between
      the new and the replaced score, and no other review's sum; giving a
      score a second time therefore leaves the sum alone. */
  lemma UsefulAfterUpsert(ratings: map<RatingKey, int>, userId: int, reviewId: int, score: int, other: int)
    ensures Useful(ratings[RatingKey(userId, reviewId) := score], reviewId) ==
      Useful(ratings, reviewId) - ScoreOf(ratings, userId, reviewId) + score
    ensures other != reviewId ==>
      Useful(ratings[RatingKey(userId, reviewId) := score], other) == Useful(ratings, other)
  {
    ScoresAfterUpsert(ratings, userId, reviewId, score);
    MapSumUpdate(Scores(ratings, reviewId), userId, score);
    if other != reviewId {
      ScoresOfOther(ratings, ratings[RatingKey(userId, reviewId) := score], other);
    }
  }

  lemma ScoresAfterRemove(ratings: map<RatingKey, int>, userId: int, reviewId: int)
    ensures Scores(ratings - {RatingKey(userId, reviewId)}, reviewId) == Scores(ratings, reviewId) - {userId}
  {
    var a := Scores(ratings - {RatingKey(userId, reviewId)}, reviewId);
    var b := Scores(ratings, reviewId) - {userId};
    assert a.Keys == b.Keys;
    assert forall u :: u in a ==> a[u] == b[u];
  }

  /** Removing one rating takes its score out of that review's sum only. */
  lemma UsefulAfterRemove(ratings: map<RatingKey, int>, userId: int, reviewId: int, other: int)
    ensures Useful(ratings - {RatingKey(userId, reviewId)}, reviewId) ==
      Useful(ratings, reviewId) - ScoreOf(ratings, userId, reviewId)
    ensures other != reviewId ==>
      Useful(ratings - {RatingKey(userId, reviewId)}, other) == Useful(ratings, other)
  {
    ScoresAfterRemove(ratings, userId, reviewId);
    MapSumDelete(Scores(ratings, reviewId), userId);
    if other != reviewId {
      ScoresOfOther(ratings, ratings - {RatingKey(userId, reviewId)}, other);
    }
  }

  /** With likes and dislikes only, `useful` is the number of users who
      liked the review minus the number who disliked it. */
  lemma UsefulCountsVotes(ratings: map<RatingKey, int>, reviewId: int)
    requires SignedScores(ratings)
    ensures Useful(ratings, reviewId) ==
      |KeysWithValue(Scores(ratings, reviewId), LikeScore)| - |KeysWithValue(Scores(ratings, reviewId), DislikeScore)|
  {
    MapSumOfSigns(Scores(ratings, reviewId));
  }

  // ---------------------------------------------------------------------
  // Reading reviews

  /** Every rating belongs to a stored review. */
  predicate RatingsReferenceReviews(db: Database)
    reads db`ratings, db`reviews
  {
    forall k :: k in db.ratings ==> k.reviewId in db.reviews
  }

  /** `checkReviewExists(id)`. */
  function CheckReviewExists(db: Database, id: int): (r: Outcome<Error>)
    reads db`reviews
    ensures r.Pass? <==> id in db.reviews
    ensures r.Failure? ==> r.error == NotFound(ReviewEntity, id)
  {
    if id in db.reviews then Pass else Failure(NotFound(ReviewEntity, id))
  }

  /** A stored review with its computed `useful`. */
  function ReviewOf(reviews: map<int, ReviewRow>, ratings: map<RatingKey, int>, id: int): (r: Review)
    requires id in reviews
    ensures r.reviewId == Some(id) && r.useful == Useful(ratings, id)
    ensures r.userId == reviews[id].userId && r.filmId == reviews[id].filmId
  {
    var row := reviews[id];
    Review(Some(id), row.content, row.isPositive, row.userId, row.filmId, Useful(ratings, id))
  }

  function ReviewAt(db: Database, id: int): (r: Review)
    requires id in db.reviews
    reads db`reviews, db`ratings
    ensures r == ReviewOf(db.reviews, db.ratings, id)
  {
    ReviewOf(db.reviews, db.ratings, id)
  }

  /** The reviews with the given keys, in the given order. */
  function ReviewsAt(db: Database, ids: seq<int>): (r: seq<Review>)
    requires forall i :: 0 <= i < |ids| ==> ids[i] in db.reviews
    reads db`reviews, db`ratings
    ensures |r| == |ids|
    ensures forall i :: 0 <= i < |ids| ==> r[i] == ReviewAt(db, ids[i])
    ensures forall x :: x in r ==> x.reviewId.Some? && x.reviewId.value in ids && x == ReviewAt(db, x.reviewId.value)
    ensures StrictlyIncreasing(ids) ==> Distinct(r)
  {
    var reviews := db.reviews;
    var ratings := db.ratings;
    var r := seq(|ids|, i requires 0 <= i < |ids| => ReviewOf(reviews, ratings, ids[i]));
    assert forall x :: x in r ==> x.reviewId.Some? && x.reviewId.value in ids && x == ReviewAt(db, x.reviewId.value) by {
      forall x | x in r ensures x.reviewId.Some? && x.reviewId.value in ids && x == ReviewAt(db, x.reviewId.value) {
        var i :| 0 <= i < |r| && r[i] == x;
        assert x.reviewId.value == ids[i];
      }
    }
    assert StrictlyIncreasing(ids) ==> Distinct(r) by {
      if StrictlyIncreasing(ids) {
        forall i, j | 0 <= i < j < |r| ensures r[i] != r[j] {
          assert r[i].reviewId == Some(ids[i]) && r[j].reviewId == Some(ids[j]);
        }
      }
    }
    r
  }

  /** Every listed key's review is among `ReviewsAt`. */
  lemma ReviewsCover(db: Database, ids: seq<int>)
    requires forall i :: 0 <= i < |ids| ==> ids[i] in db.reviews
    ensures forall id :: id in ids ==> ReviewAt(db, id) in ReviewsAt(db, ids)
  {
    forall id | id in ids ensures ReviewAt(db, id) in ReviewsAt(db, ids) {
      var i :| 0 <= i < |ids| && ids[i] == id;
      assert ReviewsAt(db, ids)[i] == ReviewAt(db, id);
    }
  }

  /** `getById(id)`. */
  function GetById(db: Database, id: int): (r: Result<Review, Error>)
    reads db`reviews, db`ratings
    ensures r.Fail? <==> id !in db.reviews
    ensures r.Fail? ==> r.error == NotFound(ReviewEntity, id)
    ensures r.Ok? ==> r.value == ReviewAt(db, id)
  {
    match CheckReviewExists(db, id)
    case Failure(e) => Fail(e)
    case Pass => Ok(ReviewAt(db, id))
  }

  /** The reviews `getAll(filmId, count)` chooses from: those of the film,
      or all of them without one. */
  function Selected(reviews: map<int, ReviewRow>, filmId: Option<int>): (s: set<int>)
  {
    set id | id in reviews && (filmId.None? || reviews[id].filmId == filmId.value)
  }

  /** The sort key of `ORDER BY useful DESC`. */
  function ByUsefulDesc(r: Review): int {
    -r.useful
  }

  /** `getAll(filmId, count)`: at most `count` of the selected reviews, no
      review twice, most useful first. */
  function GetAll(db: Database, filmId: Option<int>, count: nat): (r: seq<Review>)
    reads db`reviews, db`ratings
    ensures |r| == Min(count, |Selected(db.reviews, filmId)|)
    ensures Distinct(r)
    ensures forall i, j :: 0 <= i < j < |r| ==> r[i].useful >= r[j].useful
    ensures forall x :: x in r ==>
      x.reviewId.Some? && x.reviewId.value in Selected(db.reviews, filmId) && x == ReviewAt(db, x.reviewId.value)
  {
    var ids := Ascending(Selected(db.reviews, filmId));
    assert forall i :: 0 <= i < |ids| ==> ids[i] in ids;
    var all := ReviewsAt(db, ids);
    var top := TopBy(all, ByUsefulDesc, count);
    SubMultisetMembers(top, all);
    top
  }

  /** The reviews `getAll` leaves out are no more useful than any it
      returns. */
  lemma GetAllSpec(db: Database, filmId: Option<int>, count: nat)
    ensures var r := GetAll(db, filmId, count);
      forall id, y :: id in Selected(db.reviews, filmId) && ReviewAt(db, id) !in r && y in r ==>
        Useful(db.ratings, id) <= y.useful
  {
    var ids := Ascending(Selected(db.reviews, filmId));
    assert forall i :: 0 <= i < |ids| ==> ids[i] in ids;
    var all := ReviewsAt(db, ids);
    ReviewsCover(db, ids);
    var r := TopBy(all, ByUsefulDesc, count);
    assert r == GetAll(db, filmId, count);
    forall id, y | id in Selected(db.reviews, filmId) && ReviewAt(db, id) !in r && y in r
      ensures Useful(db.ratings, id) <= y.useful
    {
      assert ReviewAt(db, id) in all;
      assert ByUsefulDesc(y) <= ByUsefulDesc(ReviewAt(db, id));
    }
  }

  /** With room for all selected reviews, `getAll` returns all of them. */
  lemma GetAllComplete(db: Database, filmId: Option<int>, count: nat)
    requires count >= |Selected(db.reviews, filmId)|
    ensures forall id :: id in Selected(db.reviews, filmId) ==> ReviewAt(db, id) in GetAll(db, filmId, count)
  {
    var ids := Ascending(Selected(db.reviews, filmId));
    assert forall i :: 0 <= i < |ids| ==> ids[i] in ids;
    var all := ReviewsAt(db, ids);
    var r := TopBy(all, ByUsefulDesc, count);
    assert r == GetAll(db, filmId, count);
    ReviewsCover(db, ids);
    SubMultisetMembers(all, r);
  }

  // ---------------------------------------------------------------------
  // Changing reviews

  /** `create(review)`: checks the author, then the film, stores the review
      under a new key and logs a REVIEW/ADD event for the author. `now` is
      the clock value of the event. */
  method Create(db: Database, review: Review, now: int) returns (r: Result<Review, Error>)
    modifies db`reviews, db`feed
    ensures old(review.userId !in db.users) ==> r == Fail(NotFound(UserEntity, review.userId))
    ensures old(review.userId in db.users && review.filmId !in db.films) ==> r == Fail(NotFound(FilmEntity, review.filmId))
    ensures r.Ok? <==> old(review.userId in db.users && review.filmId in db.films)
    ensures r.Fail? ==> db.reviews == old(db.reviews) && db.feed == old(db.feed)
    ensures r.Ok? ==> r.value.reviewId.Some?
    ensures r.Ok? && r.value.reviewId.Some? ==>
      var id := r.value.reviewId.value;
      id !in old(db.reviews) &&
      db.reviews == old(db.reviews)[id := ReviewRow(review.content, review.isPositive, review.userId, review.filmId)] &&
      db.feed == old(db.feed) + [FeedEvent(|old(db.feed)| + 1, now, review.userId, REVIEW, ADD, id)] &&
      r.value == ReviewAt(db, id)
    ensures r.Ok? && old(RatingsReferenceReviews(db)) ==> r.value.useful == 0 && RatingsReferenceReviews(db)
  {
    var check := UserDbStorage.CheckUserExists(db, review.userId);
    if check.Failure? {
      return Fail(check.error);
    }
    check := FilmDbStorage.CheckFilmExists(db, review.filmId);
    if check.Failure? {
      return Fail(check.error);
    }
    var id := NextKey(db.reviews.Keys);
    db.reviews := db.reviews[id := ReviewRow(review.content, review.isPositive, review.userId, review.filmId)];
    var _ := FeedDbStorage.AddEvent(db, FeedEvent(0, now, review.userId, REVIEW, ADD, id));
    if RatingsReferenceReviews(db) && forall k :: k in db.ratings ==> k.reviewId != id {
      UsefulUnrated(db.ratings, id);
    }
    r := GetById(db, id);
  }

  /** `update(review)`: only the content and the verdict change; author,
      film and ratings stay. A REVIEW/UPDATE event is logged for the
      original author, whatever author the request names. */
  method Update(db: Database, review: Review, now: int) returns (r: Result<Review, Error>)
    requires review.reviewId.Some?
    modifies db`reviews, db`feed
    ensures var id := review.reviewId.value;
      old(id !in db.reviews) ==> r == Fail(NotFound(ReviewEntity, id))
    ensures var id := review.reviewId.value;
      old(id in db.reviews && db.reviews[id].userId !in db.users) ==>
        r == Fail(NotFound(UserEntity, old(db.reviews[id].userId)))
    ensures r.Fail? ==> db.reviews == old(db.reviews) && db.feed == old(db.feed)
    ensures var id := review.reviewId.value;
      r.Ok? <==> old(id in db.reviews && db.reviews[id].userId in db.users)
    ensures var id := review.reviewId.value;
      r.Ok? ==>
        var before := old(db.reviews[id]);
        db.reviews == old(db.reviews)[id := before.(content := review.content, isPositive := review.isPositive)] &&
        db.feed == old(db.feed) + [FeedEvent(|old(db.feed)| + 1, now, before.userId, REVIEW, UPDATE, id)] &&
        r.value == ReviewAt(db, id) &&
        r.value.userId == before.userId && r.value.filmId == before.filmId &&
        r.value.useful == old(Useful(db.ratings, id))
  {
    var id := review.reviewId.value;
    var check := CheckReviewExists(db, id);
    if check.Failure? {
      return Fail(check.error);
    }
    var author := db.reviews[id].userId;
    check := UserDbStorage.CheckUserExists(db, author);
    if check.Failure? {
      return Fail(check.error);
    }
    ghost var ratings := db.ratings;
    var _ := FeedDbStorage.AddEvent(db, FeedEvent(0, now, author, REVIEW, UPDATE, id));
    var updated := db.reviews[id].(content := review.content, isPositive := review.isPositive);
    db.reviews := db.reviews[id := updated];
    r := GetById(db, id);
    assert db.ratings == ratings && r.value == ReviewOf(db.reviews, ratings, id);
  }

  /** `delete(reviewId)`: removes the review's ratings, logs a REVIEW/REMOVE
      event for its author, then removes the review. */
  method Delete(db: Database, reviewId: int, now: int) returns (r: Outcome<Error>)
    modifies db`ratings, db`feed, db`reviews
    ensures r == old(CheckReviewExists(db, reviewId))
    ensures r.Failure? ==> db.ratings == old(db.ratings) && db.feed == old(db.feed) && db.reviews == old(db.reviews)
    ensures r.Pass? ==>
      (forall k :: k in db.ratings <==> k in old(db.ratings) && k.reviewId != reviewId) &&
      (forall k :: k in db.ratings ==> db.ratings[k] == old(db.ratings)[k]) &&
      db.feed == old(db.feed) + [FeedEvent(|old(db.feed)| + 1, now, old(db.reviews[reviewId].userId), REVIEW, REMOVE, reviewId)] &&
      db.reviews == old(db.reviews) - {reviewId}
    ensures old(RatingsReferenceReviews(db)) ==> RatingsReferenceReviews(db)
  {
    r := CheckReviewExists(db, reviewId);
    if r.Failure? {
      return;
    }
    ReviewsRatingsDbStorage.DeleteByReviewId(db, reviewId);
    var author := db.reviews[reviewId].userId;
    var _ := FeedDbStorage.AddEvent(db, FeedEvent(0, now, author, REVIEW, REMOVE, reviewId));
    db.reviews := db.reviews - {reviewId};
  }

  /** The reviews not about the film. */
  function NotAboutFilm(reviews: map<int, ReviewRow>, filmId: int): (r: map<int, ReviewRow>)
  {
    map id | id in reviews && reviews[id].filmId != filmId :: reviews[id]
  }

  /** The reviews not written by the user. */
  function NotByUser(reviews: map<int, ReviewRow>, userId: int): (r: map<int, ReviewRow>)
  {
    map id | id in reviews && reviews[id].userId != userId :: reviews[id]
  }

  /** `deleteByFilmId(filmId)`: removes the ratings of the film's reviews,
      then the reviews. */
  method DeleteByFilmId(db: Database, filmId: int) returns (r: Outcome<Error>)
    modifies db`ratings, db`reviews
    ensures r == old(FilmDbStorage.CheckFilmExists(db, filmId))
    ensures r.Failure? ==> db.ratings == old(db.ratings) && db.reviews == old(db.reviews)
    ensures r.Pass? ==>
      (forall k :: k in db.ratings <==>
        k in old(db.ratings) && !(k.reviewId in old(db.reviews) && old(db.reviews)[k.reviewId].filmId == filmId)) &&
      (forall k :: k in db.ratings ==> db.ratings[k] == old(db.ratings)[k]) &&
      db.reviews == NotAboutFilm(old(db.reviews), filmId)
    ensures old(RatingsReferenceReviews(db)) ==> RatingsReferenceReviews(db)
  {
    r := FilmDbStorage.CheckFilmExists(db, filmId);
    if r.Failure? {
      return;
    }
    ReviewsRatingsDbStorage.DeleteByFilmId(db, filmId);
    db.reviews := NotAboutFilm(db.reviews, filmId);
  }

  /** `deleteByUserId(userId)`: removes the ratings the user gave, then the
      reviews the user wrote. Ratings other users gave those reviews are
      not removed here. */
  method DeleteByUserId(db: Database, userId: int) returns (r: Outcome<Error>)
    modifies db`ratings, db`reviews
    ensures r == old(UserDbStorage.CheckUserExists(db, userId))
    ensures r.Failure? ==> db.ratings == old(db.ratings) && db.reviews == old(db.reviews)
    ensures r.Pass? ==>
      (forall k :: k in db.ratings <==> k in old(db.ratings) && k.userId != userId) &&
      (forall k :: k in db.ratings ==> db.ratings[k] == old(db.ratings)[k]) &&
      db.reviews == NotByUser(old(db.reviews), userId)
  {
    r := UserDbStorage.CheckUserExists(db, userId);
    if r.Failure? {
      return;
    }
    ReviewsRatingsDbStorage.DeleteByUserId(db, userId);
    db.reviews := NotByUser(db.reviews, userId);
  }

  /** The checks every rating operation makes: the review, then the user. */
  function CheckRatingArgs(db: Database, reviewId: int, userId: int): (r: Outcome<Error>)
    reads db`reviews, db`users
    ensures r.Pass? <==> reviewId in db.reviews && userId in db.users
    ensures reviewId !in db.reviews ==> r == Failure(NotFound(ReviewEntity, reviewId))
    ensures reviewId in db.reviews && userId !in db.users ==> r == Failure(NotFound(UserEntity, userId))
  {
    match CheckReviewExists(db, reviewId)
    case Failure(e) => Failure(e)
    case Pass => UserDbStorage.CheckUserExists(db, userId)
  }

  /** `addLike(reviewId, userId)`: the user's score on the review becomes
      +1, replacing any earlier score. */
  method AddLike(db: Database, reviewId: int, userId: int) returns (r: Outcome<Error>)
    modifies db`ratings
    ensures r == old(CheckRatingArgs(db, reviewId, userId))
    ensures r.Failure? ==> db.ratings == old(db.ratings)
    ensures r.Pass? ==> db.ratings == old(db.ratings)[RatingKey(userId, reviewId) := LikeScore]
    ensures r.Pass? ==>
      Useful(db.ratings, reviewId) == old(Useful(db.ratings, reviewId) - ScoreOf(db.ratings, userId, reviewId)) + LikeScore
    ensures old(SignedScores(db.ratings)) ==> SignedScores(db.ratings)
  {
    r := CheckRatingArgs(db, reviewId, userId);
    if r.Failure? {
      return;
    }
    UsefulAfterUpsert(db.ratings, userId, reviewId, LikeScore, reviewId);
    ReviewsRatingsDbStorage.Upsert(db, userId, reviewId, LikeScore);
  }

  /** `addDislike(reviewId, userId)`: the user's score on the review
      becomes -1, replacing any earlier score. */
  method AddDislike(db: Database, reviewId: int, userId: int) returns (r: Outcome<Error>)
    modifies db`ratings
    ensures r == old(CheckRatingArgs(db, reviewId, userId))
    ensures r.Failure? ==> db.ratings == old(db.ratings)
    ensures r.Pass? ==> db.ratings == old(db.ratings)[RatingKey(userId, reviewId) := DislikeScore]
    ensures r.Pass? ==>
      Useful(db.ratings, reviewId) == old(Useful(db.ratings, reviewId) - ScoreOf(db.ratings, userId, reviewId)) + DislikeScore
    ensures old(SignedScores(db.ratings)) ==> SignedScores(db.ratings)
  {
    r := CheckRatingArgs(db, reviewId, userId);
    if r.Failure? {
      return;
    }
    UsefulAfterUpsert(db.ratings, userId, reviewId, DislikeScore, reviewId);
    ReviewsRatingsDbStorage.Upsert(db, userId, reviewId, DislikeScore);
  }

  /** `deleteReviewRating(reviewId, userId)`: removes the user's score on
      the review, and fails when there is none. */
  method DeleteReviewRating(db: Database, reviewId: int, userId: int) returns (r: Outcome<Error>)
    modifies db`ratings
    ensures old(CheckRatingArgs(db, reviewId, userId)).Failure? ==> r == old(CheckRatingArgs(db, reviewId, userId))
    ensures old(CheckRatingArgs(db, reviewId, userId)).Pass? && RatingKey(userId, reviewId) !in old(db.ratings) ==>
      r == Failure(RatingNotFound(reviewId, userId))
    ensures r.Pass? <==> old(CheckRatingArgs(db, reviewId, userId)).Pass? && RatingKey(userId, reviewId) in old(db.ratings)
    ensures r.Failure? ==> db.ratings == old(db.ratings)
    ensures r.Pass? ==> db.ratings == old(db.ratings) - {RatingKey(userId, reviewId)}
    ensures r.Pass? ==>
      Useful(db.ratings, reviewId) == old(Useful(db.ratings, reviewId) - db.ratings[RatingKey(userId, reviewId)])
  {
    r := CheckRatingArgs(db, reviewId, userId);
    if r.Failure? {
      return;
    }
    if !ReviewsRatingsDbStorage.Exists(db, userId, reviewId) {
      return Failure(RatingNotFound(reviewId, userId));
    }
    UsefulAfterRemove(db.ratings, userId, reviewId, reviewId);
    ReviewsRatingsDbStorage.Delete(db, userId, reviewId);
  }
}
