/** `FilmDbStorage`: the `films` table, its like rows and its genre and
    director links, and the film queries built on them. */
module FilmDbStorage {
  import opened Wrappers
  import opened Errors
  import opened Text
  import opened Dates
  import opened Model
  import opened Schema
  import opened Collections
  import UserDbStorage
  import DirectorDbStorage

  // ---------------------------------------------------------------------
  // Existence checks

  /** `checkFilmExists(id)`. */
  function CheckFilmExists(db: Database, id: int): (r: Outcome<Error>)
    reads db`films
    ensures r.Pass? <==> id in db.films
    ensures r.Failure? ==> r.error == NotFound(FilmEntity, id)
  {
    if id in db.films then Pass else Failure(NotFound(FilmEntity, id))
  }

  /** `MpaDbStorage.checkMpaExists(id)`. */
  function CheckMpaExists(db: Database, id: int): (r: Outcome<Error>)
    reads db`mpa
    ensures r.Pass? <==> id in db.mpa
    ensures r.Failure? ==> r.error == NotFound(MpaEntity, id)
  {
    if id in db.mpa then Pass else Failure(NotFound(MpaEntity, id))
  }

  /** `GenreDbStorage.checkGenreExists(id)`. */
  function CheckGenreExists(db: Database, id: int): (r: Outcome<Error>)
    reads db`genres
    ensures r.Pass? <==> id in db.genres
    ensures r.Failure? ==> r.error == NotFound(GenreEntity, id)
  {
    if id in db.genres then Pass else Failure(NotFound(GenreEntity, id))
  }

  /** Checking every genre in turn: the first missing one raises. */
  function CheckGenresExist(db: Database, genres: seq<Genre>): (r: Outcome<Error>)
    reads db`genres
    ensures r.Pass? <==> forall i :: 0 <= i < |genres| ==> genres[i].id in db.genres
    ensures r.Failure? ==>
      exists i :: 0 <= i < |genres| && genres[i].id !in db.genres
        && (forall j :: 0 <= j < i ==> genres[j].id in db.genres)
        && r.error == NotFound(GenreEntity, genres[i].id)
  {
    if genres == [] then Pass
    else if genres[0].id !in db.genres then CheckGenreExists(db, genres[0].id)
    else
      var rest := CheckGenresExist(db, genres[1..]);
      assert forall i :: 1 <= i < |genres| ==> genres[i] == genres[1..][i - 1];
      assert rest.Failure? ==>
        exists i :: 1 <= i < |genres| && genres[i].id !in db.genres
          && (forall j :: 0 <= j < i ==> genres[j].id in db.genres)
          && rest.error == NotFound(GenreEntity, genres[i].id) by {
        if rest.Failure? {
          var k :| 0 <= k < |genres| - 1 && genres[1..][k].id !in db.genres
            && (forall j :: 0 <= j < k ==> genres[1..][j].id in db.genres)
            && rest.error == NotFound(GenreEntity, genres[1..][k].id);
          assert forall j :: 0 <= j < k + 1 ==> genres[j].id in db.genres by {
            forall j | 0 <= j < k + 1 ensures genres[j].id in db.genres {
              if j > 0 { assert genres[j] == genres[1..][j - 1]; }
            }
          }
        }
      }
      rest
  }

  /** Checking every director in turn: the first missing one raises. */
  function CheckDirectorsExist(db: Database, directors: seq<Director>): (r: Outcome<Error>)
    reads db`directors
    ensures r.Pass? <==> forall i :: 0 <= i < |directors| ==> directors[i].id in db.directors
    ensures r.Failure? ==>
      exists i :: 0 <= i < |directors| && directors[i].id !in db.directors
        && (forall j :: 0 <= j < i ==> directors[j].id in db.directors)
        && r.error == NotFound(DirectorEntity, directors[i].id)
  {
    if directors == [] then Pass
    else if directors[0].id !in db.directors then DirectorDbStorage.CheckDirectorExists(db, directors[0].id)
    else
      var rest := CheckDirectorsExist(db, directors[1..]);
      assert forall i :: 1 <= i < |directors| ==> directors[i] == directors[1..][i - 1];
      assert rest.Failure? ==>
        exists i :: 1 <= i < |directors| && directors[i].id !in db.directors
          && (forall j :: 0 <= j < i ==> directors[j].id in db.directors)
          && rest.error == NotFound(DirectorEntity, directors[i].id) by {
        if rest.Failure? {
          var k :| 0 <= k < |directors| - 1 && directors[1..][k].id !in db.directors
            && (forall j :: 0 <= j < k ==> directors[1..][j].id in db.directors)
            && rest.error == NotFound(DirectorEntity, directors[1..][k].id);
          assert forall j :: 0 <= j < k + 1 ==> directors[j].id in db.directors by {
            forall j | 0 <= j < k + 1 ensures directors[j].id in db.directors {
              if j > 0 { assert directors[j] == directors[1..][j - 1]; }
            }
          }
        }
      }
      rest
  }

  /** What `create` and `update` check before writing: the MPA rating, then
      each genre, then each director. */
  function CheckReferences(db: Database, film: Film): (r: Outcome<Error>)
    reads db`mpa, db`genres, db`directors
    ensures r.Pass? <==>
      film.mpa.id in db.mpa
        && (forall i :: 0 <= i < |film.genres| ==> film.genres[i].id in db.genres)
        && (forall i :: 0 <= i < |film.directors| ==> film.directors[i].id in db.directors)
    ensures film.mpa.id !in db.mpa ==> r == Failure(NotFound(MpaEntity, film.mpa.id))
  {
    match CheckMpaExists(db, film.mpa.id)
    case Failure(e) => Failure(e)
    case Pass =>
      match CheckGenresExist(db, film.genres)
      case Failure(e) => Failure(e)
      case Pass => CheckDirectorsExist(db, film.directors)
  }

  // ---------------------------------------------------------------------
  // Rows and links

  /** The columns of `films` a film is written to; its likes are not among
      them. */
  function RowOfFilm(film: Film): FilmRow {
    FilmRow(film.name, film.description, film.releaseDate, film.duration, film.mpa.id)
  }

  function GenreIdSet(genres: seq<Genre>): set<int> {
    set g | g in genres :: g.id
  }

  function DirectorIdSet(directors: seq<Director>): set<int> {
    set d | d in directors :: d.id
  }

  /** The `films_genres` rows inserted for a film's genres. */
  function GenreLinks(filmId: int, genres: seq<Genre>): set<Link> {
    set g | g in genres :: Link(filmId, g.id)
  }

  /** The `films_directors` rows inserted for a film's directors. */
  function DirectorLinks(filmId: int, directors: seq<Director>): set<Link> {
    set d | d in directors :: Link(filmId, d.id)
  }

  /** A link table after `DELETE … WHERE film_id = ?`. */
  function Unlinked(links: set<Link>, filmId: int): set<Link> {
    set l | l in links && l.filmId != filmId
  }

  /** Every like and link row refers to a stored film (the foreign keys of
      the schema). */
  predicate RowsReferenceFilms(db: Database)
    reads db`films, db`likes, db`filmsGenres, db`filmsDirectors
  {
    (forall l :: l in db.likes ==> l.filmId in db.films)
    && (forall l :: l in db.filmsGenres ==> l.filmId in db.films)
    && (forall l :: l in db.filmsDirectors ==> l.filmId in db.films)
  }

  /** `setFilmGenres(filmId, genres)`: one insert per genre. */
  method SetFilmGenres(db: Database, filmId: int, genres: seq<Genre>)
    modifies db`filmsGenres
    ensures db.filmsGenres == old(db.filmsGenres) + GenreLinks(filmId, genres)
  {
    for i := 0 to |genres|
      invariant db.filmsGenres == old(db.filmsGenres) + GenreLinks(filmId, genres[..i])
    {
      assert genres[..i + 1] == genres[..i] + [genres[i]];
      db.filmsGenres := db.filmsGenres + {Link(filmId, genres[i].id)};
    }
    assert genres[..|genres|] == genres;
  }

  /** `setFilmDirectors(filmId, directors)`: one insert per director. */
  method SetFilmDirectors(db: Database, filmId: int, directors: seq<Director>)
    modifies db`filmsDirectors
    ensures db.filmsDirectors == old(db.filmsDirectors) + DirectorLinks(filmId, directors)
  {
    for i := 0 to |directors|
      invariant db.filmsDirectors == old(db.filmsDirectors) + DirectorLinks(filmId, directors[..i])
    {
      assert directors[..i + 1] == directors[..i] + [directors[i]];
      db.filmsDirectors := db.filmsDirectors + {Link(filmId, directors[i].id)};
    }
    assert directors[..|directors|] == directors;
  }

  /** Once a film's old links are gone and every requested target exists,
      the film is linked to exactly the requested targets. */
  lemma LinkedExactly(links: set<Link>, targets: map<int, string>, filmId: int, wanted: set<int>)
    requires forall l :: l in links && l.filmId == filmId ==> l.targetId in wanted
    requires forall t :: t in wanted ==> Link(filmId, t) in links && t in targets
    ensures LinkedIds(links, targets, filmId) == wanted
  {
    forall t | t in wanted ensures t in LinkedIds(links, targets, filmId) {
      assert Link(filmId, t) in links;
    }
  }

  lemma GenreLinksExactly(db: Database, id: int, genres: seq<Genre>, before: set<Link>)
    requires forall l :: l in before ==> l.filmId != id
    requires forall i :: 0 <= i < |genres| ==> genres[i].id in db.genres
    requires db.filmsGenres == before + GenreLinks(id, genres)
    ensures LinkedIds(db.filmsGenres, db.genres, id) == GenreIdSet(genres)
  {
    forall t | t in GenreIdSet(genres) ensures Link(id, t) in db.filmsGenres && t in db.genres {
      var g :| g in genres && g.id == t;
    }
    LinkedExactly(db.filmsGenres, db.genres, id, GenreIdSet(genres));
  }

  lemma DirectorLinksExactly(db: Database, id: int, directors: seq<Director>, before: set<Link>)
    requires forall l :: l in before ==> l.filmId != id
    requires forall i :: 0 <= i < |directors| ==> directors[i].id in db.directors
    requires db.filmsDirectors == before + DirectorLinks(id, directors)
    ensures LinkedIds(db.filmsDirectors, db.directors, id) == DirectorIdSet(directors)
  {
    forall t | t in DirectorIdSet(directors) ensures Link(id, t) in db.filmsDirectors && t in db.directors {
      var d :| d in directors && d.id == t;
    }
    LinkedExactly(db.filmsDirectors, db.directors, id, DirectorIdSet(directors));
  }

  /** A key no like row mentions has no likes. */
  lemma NewFilmUnreferenced(likes: set<Like>, id: int)
    requires forall l :: l in likes ==> l.filmId != id
    ensures LikesOf(likes, id) == 0
  {
    assert (set l | l in likes && l.filmId == id) == {};
  }

  // ---------------------------------------------------------------------
  // Writes

  /** `create(film)`: checks the references, inserts the row under a new
      key, links the genres and directors and reads the film back. */
  method Create(db: Database, film: Film) returns (r: Result<Film, Error>)
    modifies db`films, db`filmsGenres, db`filmsDirectors
    ensures old(CheckReferences(db, film)).Failure? ==>
      r == Fail(old(CheckReferences(db, film)).error) &&
      db.films == old(db.films) && db.filmsGenres == old(db.filmsGenres) && db.filmsDirectors == old(db.filmsDirectors)
    ensures old(CheckReferences(db, film)).Pass? ==>
      r.Ok? && r.value.id.Some? && r.value.id.value !in old(db.films) &&
      db.films == old(db.films)[r.value.id.value := RowOfFilm(film)] &&
      db.filmsGenres == old(db.filmsGenres) + GenreLinks(r.value.id.value, film.genres) &&
      db.filmsDirectors == old(db.filmsDirectors) + DirectorLinks(r.value.id.value, film.directors) &&
      r.value == FilmAt(db, r.value.id.value)
    ensures r.Ok? && old(RowsReferenceFilms(db)) ==>
      r.value.likes == 0 && RowsReferenceFilms(db) &&
      LinkedIds(db.filmsGenres, db.genres, r.value.id.value) == GenreIdSet(film.genres) &&
      LinkedIds(db.filmsDirectors, db.directors, r.value.id.value) == DirectorIdSet(film.directors)
  {
    var check := CheckReferences(db, film);
    if check.Failure? {
      return Fail(check.error);
    }
    var id := NextKey(db.films.Keys);
    db.films := db.films[id := RowOfFilm(film)];
    SetFilmGenres(db, id, film.genres);
    SetFilmDirectors(db, id, film.directors);
    if old(RowsReferenceFilms(db)) {
      NewFilmUnreferenced(db.likes, id);
      GenreLinksExactly(db, id, film.genres, old(db.filmsGenres));
      DirectorLinksExactly(db, id, film.directors, old(db.filmsDirectors));
    }
    r := Ok(FilmAt(db, id));
  }

  /** `update(film)`: the film must exist and its references must check;
      then the row is overwritten and the genre and director links are
      replaced wholesale. The like rows are untouched, so a like count the
      client sends is ignored. */
  method Update(db: Database, film: Film) returns (r: Result<Film, Error>)
    requires film.id.Some?
    modifies db`films, db`filmsGenres, db`filmsDirectors
    ensures film.id.value !in old(db.films) ==> r == Fail(NotFound(FilmEntity, film.id.value))
    ensures film.id.value in old(db.films) && old(CheckReferences(db, film)).Failure? ==>
      r == Fail(old(CheckReferences(db, film)).error)
    ensures r.Fail? ==>
      db.films == old(db.films) && db.filmsGenres == old(db.filmsGenres) && db.filmsDirectors == old(db.filmsDirectors)
    ensures film.id.value in old(db.films) && old(CheckReferences(db, film)).Pass? ==>
      var id := film.id.value;
      db.films == old(db.films)[id := RowOfFilm(film)] &&
      db.filmsGenres == Unlinked(old(db.filmsGenres), id) + GenreLinks(id, film.genres) &&
      db.filmsDirectors == Unlinked(old(db.filmsDirectors), id) + DirectorLinks(id, film.directors) &&
      LinkedIds(db.filmsGenres, db.genres, id) == GenreIdSet(film.genres) &&
      LinkedIds(db.filmsDirectors, db.directors, id) == DirectorIdSet(film.directors) &&
      r == Ok(FilmAt(db, id)) && r.value.likes == LikesOf(old(db.likes), id)
  {
    var id := film.id.value;
    var found := CheckFilmExists(db, id);
    if found.Failure? {
      return Fail(found.error);
    }
    var check := CheckReferences(db, film);
    if check.Failure? {
      return Fail(check.error);
    }
    db.films := db.films[id := RowOfFilm(film)];
    db.filmsGenres := Unlinked(db.filmsGenres, id);
    db.filmsDirectors := Unlinked(db.filmsDirectors, id);
    ghost var genresBefore := db.filmsGenres;
    ghost var directorsBefore := db.filmsDirectors;
    SetFilmGenres(db, id, film.genres);
    SetFilmDirectors(db, id, film.directors);
    GenreLinksExactly(db, id, film.genres, genresBefore);
    DirectorLinksExactly(db, id, film.directors, directorsBefore);
    r := Ok(FilmAt(db, id));
    assert r.value.likes == LikesOf(db.likes, id);
  }

  /** `delete(filmId)`: removes the film's genre links, likes and director
      links, then its row. */
  method Delete(db: Database, filmId: int) returns (r: Outcome<Error>)
    modifies db`filmsGenres, db`likes, db`filmsDirectors, db`films
    ensures r == old(CheckFilmExists(db, filmId))
    ensures r.Failure? ==>
      db.filmsGenres == old(db.filmsGenres) && db.likes == old(db.likes) &&
      db.filmsDirectors == old(db.filmsDirectors) && db.films == old(db.films)
    ensures r.Pass? ==>
      db.filmsGenres == Unlinked(old(db.filmsGenres), filmId) &&
      db.likes == (set l | l in old(db.likes) && l.filmId != filmId) &&
      db.filmsDirectors == Unlinked(old(db.filmsDirectors), filmId) &&
      db.films == old(db.films) - {filmId}
    ensures old(RowsReferenceFilms(db)) ==> RowsReferenceFilms(db)
  {
    r := CheckFilmExists(db, filmId);
    if r.Failure? {
      return;
    }
    db.filmsGenres := Unlinked(db.filmsGenres, filmId);
    db.likes := set l | l in db.likes && l.filmId != filmId;
    db.filmsDirectors := Unlinked(db.filmsDirectors, filmId);
    db.films := db.films - {filmId};
  }

  /** After a delete nothing refers to the film: it has no likes, genres or
      directors, and every other film keeps its likes. */
  lemma DeleteLeavesNoTrace(likes: set<Like>, genreLinks: set<Link>, genres: map<int, string>, filmId: int, other: int)
    requires other != filmId
    ensures LikesOf((set l | l in likes && l.filmId != filmId), filmId) == 0
    ensures LinkedIds(Unlinked(genreLinks, filmId), genres, filmId) == {}
    ensures LikesOf((set l | l in likes && l.filmId != filmId), other) == LikesOf(likes, other)
  {
    var kept := set l | l in likes && l.filmId != filmId;
    assert (set l | l in kept && l.filmId == filmId) == {};
    assert (set l | l in kept && l.filmId == other) == (set l | l in likes && l.filmId == other);
  }

  /** The checks `addLike` and `deleteLike` run: the film, then the user. */
  function CheckLikeArgs(db: Database, filmId: int, userId: int): (r: Outcome<Error>)
    reads db`films, db`users
    ensures r.Pass? <==> filmId in db.films && userId in db.users
    ensures filmId !in db.films ==> r == Failure(NotFound(FilmEntity, filmId))
    ensures filmId in db.films && userId !in db.users ==> r == Failure(NotFound(UserEntity, userId))
  {
    match CheckFilmExists(db, filmId)
    case Failure(e) => Failure(e)
    case Pass => UserDbStorage.CheckUserExists(db, userId)
  }

  /** `addLike(filmId, userId)`: inserts the like unless it is there. */
  method AddLike(db: Database, filmId: int, userId: int) returns (r: Outcome<Error>)
    modifies db`likes
    ensures r == CheckLikeArgs(db, filmId, userId)
    ensures r.Pass? ==> db.likes == old(db.likes) + {Like(filmId, userId)}
    ensures r.Failure? ==> db.likes == old(db.likes)
  {
    r := CheckLikeArgs(db, filmId, userId);
    if r.Failure? {
      return;
    }
    if Like(filmId, userId) in db.likes {
      return;
    }
    db.likes := db.likes + {Like(filmId, userId)};
  }

  /** `deleteLike(filmId, userId)`: removes the like; no error when there
      is none. */
  method DeleteLike(db: Database, filmId: int, userId: int) returns (r: Outcome<Error>)
    modifies db`likes
    ensures r == CheckLikeArgs(db, filmId, userId)
    ensures r.Pass? ==> db.likes == old(db.likes) - {Like(filmId, userId)}
    ensures r.Failure? ==> db.likes == old(db.likes)
  {
    r := CheckLikeArgs(db, filmId, userId);
    if r.Failure? {
      return;
    }
    db.likes := db.likes - {Like(filmId, userId)};
  }

  /** A like raises the film's count by one the first time and not at all
      after that; other films' counts stay. */
  lemma LikeCountAfterAdd(likes: set<Like>, filmId: int, userId: int, other: int)
    requires other != filmId
    ensures LikesOf(likes + {Like(filmId, userId)}, filmId) ==
      LikesOf(likes, filmId) + (if Like(filmId, userId) in likes then 0 else 1)
    ensures LikesOf(likes + {Like(filmId, userId)}, other) == LikesOf(likes, other)
  {
    var x := Like(filmId, userId);
    var before := set l | l in likes && l.filmId == filmId;
    var after := set l | l in likes + {x} && l.filmId == filmId;
    if x in likes {
      assert after == before;
    } else {
      assert after == before + {x};
    }
    assert (set l | l in likes + {x} && l.filmId == other) == (set l | l in likes && l.filmId == other);
  }

  /** Removing a like lowers the count by one when it was there and leaves
      it otherwise; other films' counts stay. */
  lemma LikeCountAfterDelete(likes: set<Like>, filmId: int, userId: int, other: int)
    requires other != filmId
    ensures LikesOf(likes - {Like(filmId, userId)}, filmId) ==
      LikesOf(likes, filmId) - (if Like(filmId, userId) in likes then 1 else 0)
    ensures LikesOf(likes - {Like(filmId, userId)}, other) == LikesOf(likes, other)
  {
    var x := Like(filmId, userId);
    var before := set l | l in likes && l.filmId == filmId;
    var after := set l | l in likes - {x} && l.filmId == filmId;
    if x in likes {
      assert before == after + {x};
    } else {
      assert after == before;
    }
    assert (set l | l in likes - {x} && l.filmId == other) == (set l | l in likes && l.filmId == other);
  }

  // ---------------------------------------------------------------------
  // Queries

  /** `getAll()`: every stored film, in ascending id order. */
  function GetAll(db: Database): (r: seq<Film>)
    reads db`films, db`likes, db`mpa, db`genres, db`directors, db`filmsGenres, db`filmsDirectors
    ensures |r| == |db.films| && Distinct(r)
    ensures forall i :: 0 <= i < |r| ==>
      r[i].id.Some? && r[i].id.value in db.films && r[i] == FilmAt(db, r[i].id.value)
    ensures FilmIds(r) == db.films.Keys
  {
    var ids := Ascending(db.films.Keys);
    var r := FilmsFrom(db, ids, db.filmsGenres, db.filmsDirectors);
    FilmIdsOfIds(r, ids);
    FilmsListed(db, ids, db.filmsGenres, db.filmsDirectors);
    r
  }

  /** `getById(id)`. */
  function GetById(db: Database, id: int): (r: Result<Film, Error>)
    reads db`films, db`likes, db`mpa, db`genres, db`directors, db`filmsGenres, db`filmsDirectors
    ensures r.Fail? <==> id !in db.films
    ensures r.Fail? ==> r.error == NotFound(FilmEntity, id)
    ensures r.Ok? ==> r.value.id == Some(id) && r.value.likes == LikesOf(db.likes, id)
  {
    match CheckFilmExists(db, id)
    case Failure(e) => Fail(e)
    case Pass => Ok(FilmAt(db, id))
  }

  /** The `WHERE` clause of `filmsPopular`: each filter applies only when
      it is given. */
  predicate PopularFilter(db: Database, id: int, genreId: Option<int>, year: Option<int>)
    reads db`films, db`filmsGenres
    requires id in db.films
  {
    (genreId.None? || Link(id, genreId.value) in db.filmsGenres)
    && (year.None? || db.films[id].releaseDate.year == year.value)
  }

  /** The films `filmsPopular` ranks. */
  function PopularIds(db: Database, genreId: Option<int>, year: Option<int>): set<int>
    reads db`films, db`filmsGenres
  {
    set id | id in db.films && PopularFilter(db, id, genreId, year)
  }

  /** The genre link rows that `WHERE genre_id = …` keeps for grouping: all
      of them without a genre filter. The year filter keeps or drops whole
      films, so it drops no link row of a film it keeps. */
  function PopularGenreLinks(db: Database, genreId: Option<int>): set<Link>
    reads db`filmsGenres
  {
    if genreId.None? then db.filmsGenres
    else set l | l in db.filmsGenres && l.targetId == genreId.value
  }

  /** The films under the given ascending keys, assembled from the given link
      rows, most liked first, at most `count` of them. */
  function TopFilms(db: Database, ids: seq<int>, genreLinks: set<Link>, directorLinks: set<Link>, count: nat): (r: seq<Film>)
    reads db`films, db`likes, db`mpa, db`genres, db`directors
    requires StrictlyIncreasing(ids) && forall i :: 0 <= i < |ids| ==> ids[i] in db.films
    ensures |r| == Min(count, |ids|)
    ensures Distinct(r) && NonIncreasingLikes(r)
  {
    FilmsListed(db, ids, genreLinks, directorLinks);
    var r := TopBy(FilmsFrom(db, ids, genreLinks, directorLinks), ByLikesDesc, count);
    LikesOrder(r);
    r
  }

  /** `TopFilms` lists only films of the keys, and a film of the keys that
      it leaves out has no more likes than any it lists. */
  lemma TopFilmsSpec(db: Database, ids: seq<int>, genreLinks: set<Link>, directorLinks: set<Link>, count: nat)
    requires StrictlyIncreasing(ids) && forall i :: 0 <= i < |ids| ==> ids[i] in db.films
    ensures var r := TopFilms(db, ids, genreLinks, directorLinks, count);
      (forall f :: f in r ==>
        f.id.Some? && f.id.value in ids && f == FilmFrom(db, f.id.value, genreLinks, directorLinks))
      && (forall id, f :: id in ids && FilmFrom(db, id, genreLinks, directorLinks) !in r && f in r ==>
        f.likes >= LikesOf(db.likes, id))
  {
    var candidates := FilmsFrom(db, ids, genreLinks, directorLinks);
    var r := TopBy(candidates, ByLikesDesc, count);
    assert r == TopFilms(db, ids, genreLinks, directorLinks, count);
    SubMultisetMembers(r, candidates);
    assert forall f :: f in r ==> f.id.Some? && f.id.value in ids by {
      forall f | f in r ensures f.id.Some? && f.id.value in ids {
        var i :| 0 <= i < |candidates| && candidates[i] == f;
      }
    }
    Covers(db, ids, genreLinks, directorLinks);
    forall id, f | id in ids && FilmFrom(db, id, genreLinks, directorLinks) !in r && f in r
      ensures f.likes >= LikesOf(db.likes, id)
    {
      assert ByLikesDesc(f) <= ByLikesDesc(FilmFrom(db, id, genreLinks, directorLinks));
    }
  }

  /** With room for every key, `TopFilms` lists the film of every key. */
  lemma TopFilmsComplete(db: Database, ids: seq<int>, genreLinks: set<Link>, directorLinks: set<Link>, count: nat)
    requires StrictlyIncreasing(ids) && forall i :: 0 <= i < |ids| ==> ids[i] in db.films
    requires count >= |ids|
    ensures FilmIds(TopFilms(db, ids, genreLinks, directorLinks, count)) == set x | x in ids
  {
    var candidates := FilmsFrom(db, ids, genreLinks, directorLinks);
    var r := TopBy(candidates, ByLikesDesc, count);
    assert r == TopFilms(db, ids, genreLinks, directorLinks, count);
    FilmIdsOfIds(candidates, ids);
    SubMultisetMembers(r, candidates);
    SubMultisetMembers(candidates, r);
    assert FilmIds(r) == FilmIds(candidates);
  }

  /** Every listed id's film is among the films read for the ids. */
  lemma Covers(db: Database, ids: seq<int>, genreLinks: set<Link>, directorLinks: set<Link>)
    requires forall i :: 0 <= i < |ids| ==> ids[i] in db.films
    ensures forall id :: id in ids ==>
      FilmFrom(db, id, genreLinks, directorLinks) in FilmsFrom(db, ids, genreLinks, directorLinks)
  {
    var films := FilmsFrom(db, ids, genreLinks, directorLinks);
    forall id | id in ids ensures FilmFrom(db, id, genreLinks, directorLinks) in films {
      var i :| 0 <= i < |ids| && ids[i] == id;
      assert films[i] == FilmFrom(db, id, genreLinks, directorLinks);
    }
  }

  /** `filmsPopular(genreId, year, count)`: the matching films, most liked
      first, at most `count` of them. */
  function FilmsPopular(db: Database, genreId: Option<int>, year: Option<int>, count: nat): (r: seq<Film>)
    reads db`films, db`likes, db`mpa, db`genres, db`directors, db`filmsGenres, db`filmsDirectors
    ensures |r| == Min(count, |PopularIds(db, genreId, year)|)
    ensures Distinct(r) && NonIncreasingLikes(r)
  {
    var ids := Ascending(PopularIds(db, genreId, year));
    assert forall i :: 0 <= i < |ids| ==> ids[i] in ids;
    TopFilms(db, ids, PopularGenreLinks(db, genreId), db.filmsDirectors, count)
  }

  /** The popular list holds only matching films, each assembled from the
      genre rows the filter keeps, and every matching film left out has no
      more likes than any film listed. */
  lemma FilmsPopularSpec(db: Database, genreId: Option<int>, year: Option<int>, count: nat)
    ensures var r := FilmsPopular(db, genreId, year, count);
      (forall f :: f in r ==>
        f.id.Some? && f.id.value in PopularIds(db, genreId, year)
        && f == FilmFrom(db, f.id.value, PopularGenreLinks(db, genreId), db.filmsDirectors))
      && (forall id, f ::
            (id in PopularIds(db, genreId, year) && f in r
             && FilmFrom(db, id, PopularGenreLinks(db, genreId), db.filmsDirectors) !in r) ==>
            f.likes >= LikesOf(db.likes, id))
  {
    var ids := Ascending(PopularIds(db, genreId, year));
    assert forall i :: 0 <= i < |ids| ==> ids[i] in ids;
    TopFilmsSpec(db, ids, PopularGenreLinks(db, genreId), db.filmsDirectors, count);
  }

  /** What a popular film carries: without a genre filter, all of its
      genres and directors; with a filter on a stored genre, that genre
      alone, because the filter drops the other genre rows before they are
      grouped. Its directors are never filtered. */
  lemma PopularFilmLinks(db: Database, genreId: Option<int>, year: Option<int>, count: nat)
    ensures forall f :: f in FilmsPopular(db, genreId, year, count) ==>
      f.id.Some? && f.id.value in db.films
      && (genreId.None? ==> f == FilmAt(db, f.id.value))
      && (genreId.Some? && genreId.value in db.genres ==> f.genres == [Genre(genreId.value, db.genres[genreId.value])])
      && f.directors == DirectorsOf(db.filmsDirectors, db.directors, f.id.value)
  {
    var r := FilmsPopular(db, genreId, year, count);
    var links := PopularGenreLinks(db, genreId);
    FilmsPopularSpec(db, genreId, year, count);
    forall f | f in r
      ensures genreId.Some? && genreId.value in db.genres ==> f.genres == [Genre(genreId.value, db.genres[genreId.value])]
    {
      var id := f.id.value;
      assert f == FilmFrom(db, id, links, db.filmsDirectors);
      if genreId.Some? && genreId.value in db.genres {
        assert PopularFilter(db, id, genreId, year);
        OnlyGenre(links, db.genres, id, genreId.value);
      }
    }
  }

  /** With a count no smaller than the number of matching films, every
      matching film is listed. */
  lemma FilmsPopularComplete(db: Database, genreId: Option<int>, year: Option<int>, count: nat)
    requires count >= |PopularIds(db, genreId, year)|
    ensures FilmIds(FilmsPopular(db, genreId, year, count)) == PopularIds(db, genreId, year)
  {
    var ids := Ascending(PopularIds(db, genreId, year));
    assert forall i :: 0 <= i < |ids| ==> ids[i] in ids;
    TopFilmsComplete(db, ids, PopularGenreLinks(db, genreId), db.filmsDirectors, count);
    AscendingSet(PopularIds(db, genreId, year));
  }

  /** `LOWER(f.name) LIKE LOWER('%text%')`. */
  predicate TitleMatches(db: Database, id: int, text: string)
    reads db`films
    requires id in db.films
  {
    Contains(ToLower(db.films[id].name), ToLower(text))
  }

  /** `LOWER(d.name) LIKE LOWER('%text%')` for the director `directorId`;
      a link to a director without a row joins no name and never matches. */
  predicate DirectorNameMatches(db: Database, directorId: int, text: string)
    reads db`directors
  {
    directorId in db.directors && Contains(ToLower(db.directors[directorId]), ToLower(text))
  }

  /** Some director of the film matches. */
  predicate DirectorMatches(db: Database, id: int, text: string)
    reads db`filmsDirectors, db`directors
  {
    exists l :: l in db.filmsDirectors && l.filmId == id && DirectorNameMatches(db, l.targetId, text)
  }

  /** The films a search selects. */
  function SearchIds(db: Database, text: string, byDirector: bool, byTitle: bool): set<int>
    reads db`films, db`filmsDirectors, db`directors
  {
    set id | id in db.films
      && ((byTitle && TitleMatches(db, id, text)) || (byDirector && DirectorMatches(db, id, text)))
  }

  /** The director link rows a search's `WHERE` clause keeps for grouping:
      a title search keeps every row of a film it selects; a director
      search keeps the rows of matching directors, and with both flags also
      every row of a film whose title matches. */
  function SearchDirectorLinks(db: Database, text: string, byDirector: bool, byTitle: bool): set<Link>
    reads db`films, db`filmsDirectors, db`directors
  {
    if !byDirector then db.filmsDirectors
    else
      set l | l in db.filmsDirectors
        && ((byTitle && l.filmId in db.films && TitleMatches(db, l.filmId, text)) || DirectorNameMatches(db, l.targetId, text))
  }

  /** `filmSearch(searchTitle, isDirectorSearch, isTitleSearch)`. */
  function FilmSearch(db: Database, text: Option<string>, byDirector: bool, byTitle: bool): (r: Result<seq<Film>, Error>)
    reads db`films, db`likes, db`mpa, db`genres, db`directors, db`filmsGenres, db`filmsDirectors
    ensures (text.None? || text.value == []) ==> r == Fail(IllegalArgument("searchTitle cannot be null or empty"))
    ensures text.Some? && text.value != [] && !byDirector && !byTitle ==>
      r == Fail(IllegalArgument("by can be: director or title"))
    ensures r.Ok? <==> text.Some? && text.value != [] && (byDirector || byTitle)
    ensures r.Ok? ==>
      Distinct(r.value) && FilmIds(r.value) == SearchIds(db, text.value, byDirector, byTitle)
        && |r.value| == |SearchIds(db, text.value, byDirector, byTitle)|
        && forall f :: f in r.value ==>
          (f.id.Some? && f.id.value in db.films
           && f == FilmFrom(db, f.id.value, db.filmsGenres, SearchDirectorLinks(db, text.value, byDirector, byTitle)))
  {
    if text.None? || text.value == [] then Fail(IllegalArgument("searchTitle cannot be null or empty"))
    else if !byDirector && !byTitle then Fail(IllegalArgument("by can be: director or title"))
    else
      var ids := Ascending(SearchIds(db, text.value, byDirector, byTitle));
      var links := SearchDirectorLinks(db, text.value, byDirector, byTitle);
      assert forall i :: 0 <= i < |ids| ==> ids[i] in ids;
      FilmsFromIds(db, ids, db.filmsGenres, links);
      FilmsListed(db, ids, db.filmsGenres, links);
      AscendingSet(SearchIds(db, text.value, byDirector, byTitle));
      Ok(FilmsFrom(db, ids, db.filmsGenres, links))
  }

  /** What a hit carries: all of its genres; all of its directors for a
      title search, and with both flags when its title matches; otherwise
      only the directors whose name contains the text. */
  lemma SearchHitLinks(db: Database, text: Option<string>, byDirector: bool, byTitle: bool)
    requires FilmSearch(db, text, byDirector, byTitle).Ok?
    ensures forall f :: f in FilmSearch(db, text, byDirector, byTitle).value ==>
      f.id.Some? && f.id.value in db.films
      && f.genres == GenresOf(db.filmsGenres, db.genres, f.id.value)
      && ((!byDirector || (byTitle && TitleMatches(db, f.id.value, text.value))) ==> f == FilmAt(db, f.id.value))
      && (!(byTitle && TitleMatches(db, f.id.value, text.value)) ==>
            forall d :: d in f.directors ==> Contains(ToLower(d.name), ToLower(text.value)))
  {
    var hits := FilmSearch(db, text, byDirector, byTitle).value;
    var links := SearchDirectorLinks(db, text.value, byDirector, byTitle);
    forall f | f in hits
      ensures (!byDirector || (byTitle && TitleMatches(db, f.id.value, text.value))) ==> f == FilmAt(db, f.id.value)
      ensures !(byTitle && TitleMatches(db, f.id.value, text.value)) ==>
        forall d :: d in f.directors ==> Contains(ToLower(d.name), ToLower(text.value))
    {
      var id := f.id.value;
      assert f == FilmFrom(db, id, db.filmsGenres, links);
      assert id in SearchIds(db, text.value, byDirector, byTitle);
      if !byDirector || (byTitle && TitleMatches(db, id, text.value)) {
        SearchKeepsAll(db, text.value, byDirector, byTitle, id);
      }
      if byDirector && !(byTitle && TitleMatches(db, id, text.value)) {
        SearchKeepsMatching(db, text.value, byTitle, id);
      }
    }
  }

  /** A film a title search selects keeps every director row. */
  lemma SearchKeepsAll(db: Database, text: string, byDirector: bool, byTitle: bool, id: int)
    requires id in db.films
    requires !byDirector || (byTitle && TitleMatches(db, id, text))
    ensures FilmFrom(db, id, db.filmsGenres, SearchDirectorLinks(db, text, byDirector, byTitle)) == FilmAt(db, id)
  {
    var links := SearchDirectorLinks(db, text, byDirector, byTitle);
    assert LinkedIds(links, db.directors, id) == LinkedIds(db.filmsDirectors, db.directors, id);
  }

  /** A director search keeps, for a film it does not select by title,
      only the rows of directors whose name contains the text. */
  lemma SearchKeepsMatching(db: Database, text: string, byTitle: bool, id: int)
    requires id in db.films
    requires !(byTitle && TitleMatches(db, id, text))
    ensures forall d :: d in DirectorsOf(SearchDirectorLinks(db, text, true, byTitle), db.directors, id) ==>
      Contains(ToLower(d.name), ToLower(text))
  {
    var links := SearchDirectorLinks(db, text, true, byTitle);
    var directors := DirectorsOf(links, db.directors, id);
    forall d | d in directors ensures Contains(ToLower(d.name), ToLower(text)) {
      var i :| 0 <= i < |directors| && directors[i] == d;
      assert d.id in LinkedIds(links, db.directors, id);
      var l :| l in links && l.filmId == id && l.targetId in db.directors && l.targetId == d.id;
      assert DirectorNameMatches(db, l.targetId, text);
    }
  }

  /** The director link rows `WHERE fd.director_id = ?` keeps for grouping. */
  function LinksOfDirector(db: Database, directorId: int): set<Link>
    reads db`filmsDirectors
  {
    set l | l in db.filmsDirectors && l.targetId == directorId
  }

  /** The films linked to a director. */
  function DirectorFilmIds(db: Database, directorId: int): set<int>
    reads db`films, db`filmsDirectors
  {
    set id | id in db.films && Link(id, directorId) in db.filmsDirectors
  }

  /** The ascending sort key that realises `ORDER BY f.release_date`. */
  function ByReleaseDate(f: Film): int {
    Ordinal(f.releaseDate)
  }

  /** The key `getFilmsOfDirectors` sorts by: release date for "year",
      likes descending for "likes". */
  function DirectorSortKey(sortBy: string): Film -> int {
    if EqualsIgnoreCase(sortBy, "year") then ByReleaseDate else ByLikesDesc
  }

  /** The director's films in ascending id order, before sorting, each with
      the director rows the filter keeps. */
  function DirectorFilms(db: Database, directorId: int): (films: seq<Film>)
    reads db`films, db`likes, db`mpa, db`genres, db`directors, db`filmsGenres, db`filmsDirectors
    ensures FilmIds(films) == DirectorFilmIds(db, directorId)
    ensures |films| == |DirectorFilmIds(db, directorId)| && |FilmIds(films)| == |films|
    ensures forall f :: f in films ==>
      (f.id.Some? && f.id.value in db.films
       && f == FilmFrom(db, f.id.value, db.filmsGenres, LinksOfDirector(db, directorId)))
  {
    var ids := Ascending(DirectorFilmIds(db, directorId));
    assert forall i :: 0 <= i < |ids| ==> ids[i] in ids;
    FilmsFromIds(db, ids, db.filmsGenres, LinksOfDirector(db, directorId));
    FilmsListed(db, ids, db.filmsGenres, LinksOfDirector(db, directorId));
    AscendingSet(DirectorFilmIds(db, directorId));
    FilmsFrom(db, ids, db.filmsGenres, LinksOfDirector(db, directorId))
  }

  /** `getFilmsOfDirectors(directorId, sortBy)`. */
  function GetFilmsOfDirectors(db: Database, directorId: int, sortBy: string): (r: Result<seq<Film>, Error>)
    reads db`films, db`likes, db`mpa, db`genres, db`directors, db`filmsGenres, db`filmsDirectors
    ensures directorId !in db.directors ==> r == Fail(NotFound(DirectorEntity, directorId))
    ensures directorId in db.directors && !EqualsIgnoreCase(sortBy, "year") && !EqualsIgnoreCase(sortBy, "likes") ==>
      r == Fail(Validation("Error parameter sort film"))
    ensures r.Ok? <==> directorId in db.directors && (EqualsIgnoreCase(sortBy, "year") || EqualsIgnoreCase(sortBy, "likes"))
    ensures r.Ok? && EqualsIgnoreCase(sortBy, "year") ==> SortedBy(r.value, ByReleaseDate)
    ensures r.Ok? && !EqualsIgnoreCase(sortBy, "year") ==> NonIncreasingLikes(r.value)
  {
    match DirectorDbStorage.CheckDirectorExists(db, directorId)
    case Failure(e) => Fail(e)
    case Pass =>
      if !EqualsIgnoreCase(sortBy, "year") && !EqualsIgnoreCase(sortBy, "likes") then
        Fail(Validation("Error parameter sort film"))
      else
        var sorted := SortBy(DirectorFilms(db, directorId), DirectorSortKey(sortBy));
        if EqualsIgnoreCase(sortBy, "year") then Ok(sorted)
        else
          LikesOrder(sorted);
          Ok(sorted)
  }

  /** The filmography lists each of the director's films exactly once; each
      carries all of its genres and, as its only director, the one asked
      for, because the filter drops the other director rows before they are
      grouped. */
  lemma FilmsOfDirectorsSpec(db: Database, directorId: int, sortBy: string)
    requires GetFilmsOfDirectors(db, directorId, sortBy).Ok?
    ensures var films := GetFilmsOfDirectors(db, directorId, sortBy).value;
      FilmIds(films) == DirectorFilmIds(db, directorId)
      && |films| == |DirectorFilmIds(db, directorId)| && |FilmIds(films)| == |films|
      && (forall f :: f in films ==>
            (f.id.Some? && f.id.value in db.films
             && f == FilmFrom(db, f.id.value, db.filmsGenres, LinksOfDirector(db, directorId))
             && f.releaseDate == db.films[f.id.value].releaseDate
             && f.genres == GenresOf(db.filmsGenres, db.genres, f.id.value)
             && f.directors == [Director(directorId, db.directors[directorId])]))
  {
    var films := DirectorFilms(db, directorId);
    var sorted := SortBy(films, DirectorSortKey(sortBy));
    assert sorted == GetFilmsOfDirectors(db, directorId, sortBy).value;
    DistinctIdsPermutation(films, sorted);
    SubMultisetMembers(sorted, films);
    forall f | f in sorted ensures f.directors == [Director(directorId, db.directors[directorId])] {
      var id := f.id.value;
      assert id in DirectorFilmIds(db, directorId);
      OnlyDirector(LinksOfDirector(db, directorId), db.directors, id, directorId);
    }
  }

  /** On real dates, ordering by year lists the films chronologically: no
      film is released before one listed ahead of it. */
  lemma DirectorFilmsChronological(db: Database, directorId: int, sortBy: string)
    requires forall id :: id in db.films ==> FieldsInRange(db.films[id].releaseDate)
    requires GetFilmsOfDirectors(db, directorId, sortBy).Ok? && EqualsIgnoreCase(sortBy, "year")
    ensures var films := GetFilmsOfDirectors(db, directorId, sortBy).value;
      forall i, j :: 0 <= i < j < |films| ==> !IsBefore(films[j].releaseDate, films[i].releaseDate)
  {
    var films := GetFilmsOfDirectors(db, directorId, sortBy).value;
    FilmsOfDirectorsSpec(db, directorId, sortBy);
    assert forall f :: f in films ==> FieldsInRange(f.releaseDate);
    Chronological(films);
  }

  /** Films in ascending release-date key order with real dates are in
      chronological order. */
  lemma Chronological(films: seq<Film>)
    requires SortedBy(films, ByReleaseDate)
    requires forall f :: f in films ==> FieldsInRange(f.releaseDate)
    ensures forall i, j :: 0 <= i < j < |films| ==> !IsBefore(films[j].releaseDate, films[i].releaseDate)
  {
    forall i, j | 0 <= i < j < |films| ensures !IsBefore(films[j].releaseDate, films[i].releaseDate) {
      assert films[i] in films && films[j] in films;
      assert ByReleaseDate(films[i]) <= ByReleaseDate(films[j]);
      OrdinalOrder(films[j].releaseDate, films[i].releaseDate);
    }
  }
}
