/** The entities the REST API exchanges. A Java field that may be `null`
    is an `Option`. */
module Model {
  import opened Wrappers
  import opened Dates

  datatype User = User(
    id: Option<int>,
    email: Option<string>,
    login: Option<string>,
    name: Option<string>,
    birthday: Option<Date>)

  datatype Mpa = Mpa(id: int, name: string)

  datatype Genre = Genre(id: int, name: string)

  datatype Director = Director(id: int, name: string)

  datatype Film = Film(
    id: Option<int>,
    name: string,
    description: string,
    releaseDate: Date,
    duration: int,
    likes: int,
    mpa: Mpa,
    genres: seq<Genre>,
    directors: seq<Director>)

  datatype Review = Review(
    reviewId: Option<int>,
    content: string,
    isPositive: bool,
    userId: int,
    filmId: int,
    useful: int)

  datatype EventType = LIKE | REVIEW | FRIEND

  datatype Operation = REMOVE | ADD | UPDATE

  /** A row of `user_feeds`. The timestamp is whatever clock value the
      caller supplied. */
  datatype FeedEvent = FeedEvent(
    eventId: int,
    timestamp: int,
    userId: int,
    eventType: EventType,
    operation: Operation,
    entityId: int)
}
