/** `FilmService`: argument defaulting and checks in front of the film
    storage, and the cascade of a film delete into its reviews. */
module FilmService {
  import opened Wrappers
  import opened Errors
  import opened Text
  import opened Model
  import opened Schema
  import opened Collections
  import UserDbStorage
  import DirectorDbStorage
  import FilmDbStorage
  import ReviewDbStorage

  /** `DEFAULT_FILMS_POPULAR_COUNT`. */
  const DefaultPopularCount: nat := 10

  /** `update(film)`: a film without an id is refused before the storage is
      asked. */
  method Update(db: Database, film: Film) returns (r: Result<Film, Error>)
    modifies db`films, db`filmsGenres, db`filmsDirectors
    ensures film.id.None? ==> r == Fail(Validation(IdRequired))
    ensures film.id.Some? && film.id.value !in old(db.films) ==> r == Fail(NotFound(FilmEntity, film.id.value))
    ensures r.Fail? ==>
      db.films == old(db.films) && db.filmsGenres == old(db.filmsGenres) && db.filmsDirectors == old(db.filmsDirectors)
    ensures r.Ok? ==>
      film.id.Some? && db.films == old(db.films)[film.id.value := FilmDbStorage.RowOfFilm(film)] &&
      r.value == FilmAt(db, film.id.value) && r.value.likes == LikesOf(old(db.likes), film.id.value)
  {
    if film.id.None? {
      return Fail(Validation(IdRequired));
    }
    r := FilmDbStorage.Update(db, film);
  }

  /** `delete(filmId)`: the film's reviews (and their ratings) go first,
      then the film with its links and likes. An unknown film changes
      nothing. */
  method Delete(db: Database, filmId: int) returns (r: Outcome<Error>)
    modifies db`ratings, db`reviews, db`filmsGenres, db`likes, db`filmsDirectors, db`films
    ensures r == old(FilmDbStorage.CheckFilmExists(db, filmId))
    ensures r.Failure? ==>
      db.ratings == old(db.ratings) && db.reviews == old(db.reviews) &&
      db.filmsGenres == old(db.filmsGenres) && db.likes == old(db.likes) &&
      db.filmsDirectors == old(db.filmsDirectors) && db.films == old(db.films)
    ensures r.Pass? ==>
      db.reviews == ReviewDbStorage.NotAboutFilm(old(db.reviews), filmId) &&
      (forall k :: k in db.ratings <==>
        k in old(db.ratings) && !(k.reviewId in old(db.reviews) && old(db.reviews)[k.reviewId].filmId == filmId)) &&
      db.filmsGenres == FilmDbStorage.Unlinked(old(db.filmsGenres), filmId) &&
      db.likes == (set l | l in old(db.likes) && l.filmId != filmId) &&
      db.filmsDirectors == FilmDbStorage.Unlinked(old(db.filmsDirectors), filmId) &&
      db.films == old(db.films) - {filmId}
    ensures old(FilmDbStorage.RowsReferenceFilms(db)) ==> FilmDbStorage.RowsReferenceFilms(db)
    ensures old(ReviewDbStorage.RatingsReferenceReviews(db)) ==> ReviewDbStorage.RatingsReferenceReviews(db)
  {
    r := ReviewDbStorage.DeleteByFilmId(db, filmId);
    if r.Failure? {
      return;
    }
    var deleted := FilmDbStorage.Delete(db, filmId);
    assert deleted.Pass?;
  }

  /** `addLike(filmId, userId)`: the user is looked up first, so an unknown
      user is reported before an unknown film. */
  method AddLike(db: Database, filmId: int, userId: int) returns (r: Outcome<Error>)
    modifies db`likes
    ensures userId !in db.users ==> r == Failure(NotFound(UserEntity, userId))
    ensures userId in db.users && filmId !in db.films ==> r == Failure(NotFound(FilmEntity, filmId))
    ensures r.Pass? <==> userId in db.users && filmId in db.films
    ensures r.Pass? ==> db.likes == old(db.likes) + {Like(filmId, userId)}
    ensures r.Failure? ==> db.likes == old(db.likes)
  {
    var user := UserDbStorage.GetById(db, userId);
    if user.Fail? {
      return Failure(user.error);
    }
    r := FilmDbStorage.AddLike(db, filmId, userId);
  }

  /** `deleteLike(filmId, userId)`: the user is looked up first. */
  method DeleteLike(db: Database, filmId: int, userId: int) returns (r: Outcome<Error>)
    modifies db`likes
    ensures userId !in db.users ==> r == Failure(NotFound(UserEntity, userId))
    ensures userId in db.users && filmId !in db.films ==> r == Failure(NotFound(FilmEntity, filmId))
    ensures r.Pass? <==> userId in db.users && filmId in db.films
    ensures r.Pass? ==> db.likes == old(db.likes) - {Like(filmId, userId)}
    ensures r.Failure? ==> db.likes == old(db.likes)
  {
    var user := UserDbStorage.GetById(db, userId);
    if user.Fail? {
      return Failure(user.error);
    }
    r := FilmDbStorage.DeleteLike(db, filmId, userId);
  }

  /** `filmsPopular(genreId, year, count)`: ten films when no count is
      given. */
  function FilmsPopular(db: Database, genreId: Option<int>, year: Option<int>, count: Option<nat>): (r: seq<Film>)
    reads db`films, db`likes, db`mpa, db`genres, db`directors, db`filmsGenres, db`filmsDirectors
    ensures var limit := if count.Some? then count.value else DefaultPopularCount;
      |r| == Min(limit, |FilmDbStorage.PopularIds(db, genreId, year)|)
    ensures count.None? ==> |r| == Min(10, |FilmDbStorage.PopularIds(db, genreId, year)|)
    ensures Distinct(r) && NonIncreasingLikes(r)
  {
    FilmDbStorage.FilmsPopular(db, genreId, year, if count.Some? then count.value else DefaultPopularCount)
  }

  /** Both a `by` and a query are present, so the storage is searched. */
  predicate Searching(searchTitle: Option<string>, searchBy: Option<string>) {
    searchBy.Some? && searchBy.value != [] && searchTitle.Some? && searchTitle.value != []
  }

  /** `filmSearch(searchTitle, by)`: `by` is required; without a query
      every film is returned; otherwise `by` selects the director and/or
      title search by substring, and the storage's hits come most liked
      first. */
  function FilmSearch(db: Database, searchTitle: Option<string>, searchBy: Option<string>): (r: Result<seq<Film>, Error>)
    reads db`films, db`likes, db`mpa, db`genres, db`directors, db`filmsGenres, db`filmsDirectors
    ensures (searchBy.None? || searchBy.value == []) ==> r == Fail(IllegalArgument("Film search by is required"))
    ensures searchBy.Some? && searchBy.value != [] && (searchTitle.None? || searchTitle.value == []) ==>
      r == Ok(FilmDbStorage.GetAll(db))
    ensures Searching(searchTitle, searchBy) ==>
      var isDirectorSearch := Contains(searchBy.value, "director");
      var isTitleSearch := Contains(searchBy.value, "title");
      var hits := FilmDbStorage.FilmSearch(db, searchTitle, isDirectorSearch, isTitleSearch);
      (!isDirectorSearch && !isTitleSearch ==> r == Fail(IllegalArgument("by can be: director or title"))) &&
      (r.Ok? <==> isDirectorSearch || isTitleSearch) &&
      (r.Ok? ==>
        hits.Ok? && multiset(r.value) == multiset(hits.value) &&
        NonIncreasingLikes(r.value) && |FilmIds(r.value)| == |r.value| &&
        FilmIds(r.value) == FilmDbStorage.SearchIds(db, searchTitle.value, isDirectorSearch, isTitleSearch))
  {
    if searchBy.None? || searchBy.value == [] then Fail(IllegalArgument("Film search by is required"))
    else if searchTitle.None? || searchTitle.value == [] then Ok(FilmDbStorage.GetAll(db))
    else
      var isDirectorSearch := Contains(searchBy.value, "director");
      var isTitleSearch := Contains(searchBy.value, "title");
      match FilmDbStorage.FilmSearch(db, searchTitle, isDirectorSearch, isTitleSearch)
      case Fail(e) => Fail(e)
      case Ok(films) =>
        SortedByLikes(films);
        Ok(SortBy(films, ByLikesDesc))
  }

  /** `getFilmsOfDirectors(directorId, sortBy)`: the director is looked up
      first, which fails exactly when the storage would. */
  function GetFilmsOfDirectors(db: Database, directorId: int, sortBy: string): (r: Result<seq<Film>, Error>)
    reads db`films, db`likes, db`mpa, db`genres, db`directors, db`filmsGenres, db`filmsDirectors
    ensures directorId !in db.directors ==> r == Fail(NotFound(DirectorEntity, directorId))
    ensures r == FilmDbStorage.GetFilmsOfDirectors(db, directorId, sortBy)
  {
    match DirectorDbStorage.GetById(db, directorId)
    case Fail(e) => Fail(e)
    case Ok(_) => FilmDbStorage.GetFilmsOfDirectors(db, directorId, sortBy)
  }
}
