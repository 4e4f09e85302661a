/** The exceptions the core throws, with the reason strings they carry. */
module Errors {
  import opened Text

  /** The tables whose existence checks raise `NotFoundException`. */
  datatype Entity = UserEntity | FilmEntity | ReviewEntity | DirectorEntity | GenreEntity | MpaEntity

  datatype Error =
    /** `NotFoundException` from a `check…Exists` call. */
    | NotFound(entity: Entity, id: int)
    /** `NotFoundException` from `deleteReviewRating` when no rating exists. */
    | RatingNotFound(reviewId: int, userId: int)
    /** `ValidationException`, or a `ResponseStatusException` with status 400. */
    | Validation(message: string)
    /** `IllegalArgumentException`. */
    | IllegalArgument(message: string)
    /** `IndexOutOfBoundsException` from `List.get(index)` on a list of
        `length` elements. */
    | IndexOutOfBounds(index: int, length: int)
    /** `NumberFormatException` from `Integer.parseInt(token)`. */
    | NumberFormat(token: string)
    /** The `SQLException` a `ResultSet` raises when asked for a column the
        query does not select. */
    | ColumnNotFound(column: string)

  function EntityName(e: Entity): string {
    match e
    case UserEntity => "user"
    case FilmEntity => "film"
    case ReviewEntity => "review"
    case DirectorEntity => "Director"
    case GenreEntity => "genre"
    case MpaEntity => "mpa"
  }

  /** The reason string the exception carries (the JSON `reason` field). */
  function Reason(e: Error): string {
    match e
    case NotFound(entity, id) => EntityName(entity) + " with id " + FormatInt(id) + " not found"
    case RatingNotFound(reviewId, userId) =>
      "rating of review with id " + FormatInt(reviewId) + " by user with id " + FormatInt(userId) + " not found"
    case Validation(message) => message
    case IllegalArgument(message) => message
    case IndexOutOfBounds(index, length) =>
      "Index " + FormatInt(index) + " out of bounds for length " + FormatInt(length)
    case NumberFormat(token) => "For input string: \"" + token + "\""
    case ColumnNotFound(column) => "Column \"" + column + "\" not found"
  }

  /** The message shared by the three `update` operations that need an id. */
  const IdRequired: string := "id field is required"
}
