/** The relational state behind the database storages: one field per
    table. A table keyed by an identity column is a map from the id to the
    other columns; a link table is a set of pairs. */
module Schema {
  import opened Wrappers
  import opened Dates
  import opened Model
  import Collections

  /** The row of `users` with key `id`. */
  datatype UserRow = UserRow(
    email: Option<string>,
    login: Option<string>,
    name: Option<string>,
    birthday: Option<Date>)

  /** The row of `films` with key `id`. */
  datatype FilmRow = FilmRow(
    name: string,
    description: string,
    releaseDate: Date,
    duration: int,
    mpaId: int)

  /** The row of `reviews` with key `id`. */
  datatype ReviewRow = ReviewRow(content: string, isPositive: bool, userId: int, filmId: int)

  /** The key (user_id, friend_id) of `users_friends_requests`. */
  datatype Edge = Edge(userId: int, friendId: int)

  /** A row of `films_genres` or `films_directors`. */
  datatype Link = Link(filmId: int, targetId: int)

  /** A row of `users_films_likes`. */
  datatype Like = Like(filmId: int, userId: int)

  /** The key (user_id, review_id) of `users_reviews_ratings`. */
  datatype RatingKey = RatingKey(userId: int, reviewId: int)

  /** The status column of `users_friends_requests`, decoded. The text the
      column holds is `FriendRequests.Encode(status)`. */
  datatype Status = UNAPPROVED | APPROVED

  class Database {
    var users: map<int, UserRow>
    var films: map<int, FilmRow>
    var mpa: map<int, string>
    var genres: map<int, string>
    var directors: map<int, string>
    var filmsGenres: set<Link>
    var filmsDirectors: set<Link>
    var likes: set<Like>
    var requests: map<Edge, Status>
    var reviews: map<int, ReviewRow>
    var ratings: map<RatingKey, int>
    var feed: seq<FeedEvent>

    /** A database whose reference tables `mpa` and `genres` hold the given
        rows and whose other tables are empty. */
    constructor (mpaRows: map<int, string>, genreRows: map<int, string>)
      ensures mpa == mpaRows && genres == genreRows
      ensures users == map[] && films == map[] && directors == map[]
      ensures filmsGenres == {} && filmsDirectors == {} && likes == {}
      ensures requests == map[] && reviews == map[] && ratings == map[] && feed == []
    {
      users := map[];
      films := map[];
      mpa := mpaRows;
      genres := genreRows;
      directors := map[];
      filmsGenres := {};
      filmsDirectors := {};
      likes := {};
      requests := map[];
      reviews := map[];
      ratings := map[];
      feed := [];
    }
  }

  function UserOf(id: int, row: UserRow): User {
    User(Some(id), row.email, row.login, row.name, row.birthday)
  }

  function RowOf(u: User): UserRow {
    UserRow(u.email, u.login, u.name, u.birthday)
  }

  /** The users whose rows hold the given ids, in ascending id order. */
  function UsersOf(users: map<int, UserRow>, ids: set<int>): (r: seq<User>)
    ensures |r| == |ids * users.Keys|
    ensures forall i :: 0 <= i < |r| ==> r[i].id.Some? && r[i].id.value in users && r[i] == UserOf(r[i].id.value, users[r[i].id.value])
    ensures IdsOf(r) == ids * users.Keys
  {
    var keys := Collections.Ascending(ids * users.Keys);
    assert forall i :: 0 <= i < |keys| ==> keys[i] in keys;
    var r := seq(|keys|, i requires 0 <= i < |keys| => UserOf(keys[i], users[keys[i]]));
    IdsOfUsers(users, keys, r);
    r
  }

  lemma IdsOfUsers(users: map<int, UserRow>, keys: seq<int>, r: seq<User>)
    requires forall i :: 0 <= i < |keys| ==> keys[i] in users
    requires |r| == |keys| && forall i :: 0 <= i < |r| ==> r[i] == UserOf(keys[i], users[keys[i]])
    ensures IdsOf(r) == set k | k in keys
  {
    forall k | k in keys ensures k in IdsOf(r) {
      var i :| 0 <= i < |keys| && keys[i] == k;
      assert r[i] in r;
    }
  }

  /** The ids of the users in `us`. */
  function IdsOf(us: seq<User>): set<int> {
    set u | u in us && u.id.Some? :: u.id.value
  }

  /** A film's `likes` column: the number of rows of `users_films_likes`
      for it. */
  function LikesOf(likes: set<Like>, filmId: int): int {
    |set l | l in likes && l.filmId == filmId|
  }

  /** The users who liked `filmId`. */
  function LikersOf(likes: set<Like>, filmId: int): set<int> {
    set l | l in likes && l.filmId == filmId :: l.userId
  }

  /** The films `userId` liked. */
  function LikedBy(likes: set<Like>, userId: int): set<int> {
    set l | l in likes && l.userId == userId :: l.filmId
  }

  /** The ids a link table associates with `filmId`, restricted to ids
      that have a row in the target table. */
  function LinkedIds(links: set<Link>, targets: map<int, string>, filmId: int): set<int> {
    set l | l in links && l.filmId == filmId && l.targetId in targets :: l.targetId
  }

  /** A film's genres, in ascending id order: one per linked genre that has
      a row, with that row's name. */
  function GenresOf(links: set<Link>, genres: map<int, string>, filmId: int): (r: seq<Genre>)
    ensures |r| == |LinkedIds(links, genres, filmId)|
    ensures forall i :: 0 <= i < |r| ==>
      r[i].id in LinkedIds(links, genres, filmId) && r[i].id in genres && r[i].name == genres[r[i].id]
  {
    var ids := Collections.Ascending(LinkedIds(links, genres, filmId));
    assert forall i :: 0 <= i < |ids| ==> ids[i] in ids;
    seq(|ids|, i requires 0 <= i < |ids| => Genre(ids[i], genres[ids[i]]))
  }

  /** A film's directors, in ascending id order: one per linked director
      that has a row, with that row's name. */
  function DirectorsOf(links: set<Link>, directors: map<int, string>, filmId: int): (r: seq<Director>)
    ensures |r| == |LinkedIds(links, directors, filmId)|
    ensures forall i :: 0 <= i < |r| ==>
      r[i].id in LinkedIds(links, directors, filmId) && r[i].id in directors && r[i].name == directors[r[i].id]
  {
    var ids := Collections.Ascending(LinkedIds(links, directors, filmId));
    assert forall i :: 0 <= i < |ids| ==> ids[i] in ids;
    seq(|ids|, i requires 0 <= i < |ids| => Director(ids[i], directors[ids[i]]))
  }

  /** When every link row `links` holds for a film points at `t`, one of
      them does and `t` has a row, the film is linked to `t` alone. */
  lemma OnlyLinked(links: set<Link>, targets: map<int, string>, filmId: int, t: int)
    requires Link(filmId, t) in links && t in targets
    requires forall l :: l in links && l.filmId == filmId ==> l.targetId == t
    ensures LinkedIds(links, targets, filmId) == {t}
  {
    assert Link(filmId, t).targetId in LinkedIds(links, targets, filmId);
  }

  /** A film linked to the genre `t` alone lists that genre alone. */
  lemma OnlyGenre(links: set<Link>, genres: map<int, string>, filmId: int, t: int)
    requires Link(filmId, t) in links && t in genres
    requires forall l :: l in links && l.filmId == filmId ==> l.targetId == t
    ensures GenresOf(links, genres, filmId) == [Genre(t, genres[t])]
  {
    OnlyLinked(links, genres, filmId, t);
    var r := GenresOf(links, genres, filmId);
    assert |r| == 1 && r[0].id == t;
  }

  /** A film linked to the director `t` alone lists that director alone. */
  lemma OnlyDirector(links: set<Link>, directors: map<int, string>, filmId: int, t: int)
    requires Link(filmId, t) in links && t in directors
    requires forall l :: l in links && l.filmId == filmId ==> l.targetId == t
    ensures DirectorsOf(links, directors, filmId) == [Director(t, directors[t])]
  {
    OnlyLinked(links, directors, filmId, t);
    var r := DirectorsOf(links, directors, filmId);
    assert |r| == 1 && r[0].id == t;
  }

  /** The film with key `id` as a film query assembles it from the link rows
      its `WHERE` clause keeps: its row, the number of its likes, its MPA
      rating, and the genres and directors that `genreLinks` and
      `directorLinks` give it. */
  function FilmFrom(db: Database, id: int, genreLinks: set<Link>, directorLinks: set<Link>): (f: Film)
    reads db`films, db`likes, db`mpa, db`genres, db`directors
    requires id in db.films
    ensures f.id == Some(id) && f.likes == LikesOf(db.likes, id)
    ensures f.releaseDate == db.films[id].releaseDate
    ensures |f.genres| == |LinkedIds(genreLinks, db.genres, id)|
    ensures |f.directors| == |LinkedIds(directorLinks, db.directors, id)|
  {
    var row := db.films[id];
    Film(Some(id), row.name, row.description, row.releaseDate, row.duration,
         LikesOf(db.likes, id),
         Mpa(row.mpaId, if row.mpaId in db.mpa then db.mpa[row.mpaId] else ""),
         GenresOf(genreLinks, db.genres, id),
         DirectorsOf(directorLinks, db.directors, id))
  }

  /** The film with key `id` as an unfiltered query reads it: with all of
      its genre and director links. */
  function FilmAt(db: Database, id: int): (f: Film)
    reads db`films, db`likes, db`mpa, db`genres, db`directors, db`filmsGenres, db`filmsDirectors
    requires id in db.films
    ensures f.id == Some(id) && f.likes == LikesOf(db.likes, id)
    ensures f.releaseDate == db.films[id].releaseDate
  {
    FilmFrom(db, id, db.filmsGenres, db.filmsDirectors)
  }

  /** The ascending sort key that realises `ORDER BY likes DESC`. */
  function ByLikesDesc(f: Film): int {
    -f.likes
  }

  /** The films with the given keys, in the given order, assembled from the
      given link rows. */
  function FilmsFrom(db: Database, ids: seq<int>, genreLinks: set<Link>, directorLinks: set<Link>): (r: seq<Film>)
    reads db`films, db`likes, db`mpa, db`genres, db`directors
    requires forall i :: 0 <= i < |ids| ==> ids[i] in db.films
    ensures |r| == |ids|
    ensures forall i :: 0 <= i < |r| ==> r[i] == FilmFrom(db, ids[i], genreLinks, directorLinks)
    ensures forall i :: 0 <= i < |r| ==> r[i].id == Some(ids[i]) && r[i].likes == LikesOf(db.likes, ids[i])
  {
    if ids == [] then []
    else [FilmFrom(db, ids[0], genreLinks, directorLinks)] + FilmsFrom(db, ids[1..], genreLinks, directorLinks)
  }

  /** The films read for strictly increasing keys carry exactly those
      keys, one film per key. */
  lemma FilmsFromIds(db: Database, ids: seq<int>, genreLinks: set<Link>, directorLinks: set<Link>)
    requires Collections.StrictlyIncreasing(ids) && forall i :: 0 <= i < |ids| ==> ids[i] in db.films
    ensures FilmIds(FilmsFrom(db, ids, genreLinks, directorLinks)) == set x | x in ids
    ensures |FilmIds(FilmsFrom(db, ids, genreLinks, directorLinks))| == |ids|
  {
    var films := FilmsFrom(db, ids, genreLinks, directorLinks);
    FilmIdsOfIds(films, ids);
    DistinctIds(films, ids);
  }

  /** The films read for the keys are stored films, each assembled from
      the given link rows, and distinct keys give distinct films. */
  lemma FilmsListed(db: Database, ids: seq<int>, genreLinks: set<Link>, directorLinks: set<Link>)
    requires forall i :: 0 <= i < |ids| ==> ids[i] in db.films
    ensures var r := FilmsFrom(db, ids, genreLinks, directorLinks);
      (forall f :: f in r ==>
        f.id.Some? && f.id.value in db.films && f == FilmFrom(db, f.id.value, genreLinks, directorLinks))
      && (Collections.StrictlyIncreasing(ids) ==> Collections.Distinct(r))
  {
    var r := FilmsFrom(db, ids, genreLinks, directorLinks);
    forall f | f in r ensures f.id.Some? && f.id.value in db.films && f == FilmFrom(db, f.id.value, genreLinks, directorLinks) {
      var i :| 0 <= i < |r| && r[i] == f;
      assert f.id.value == ids[i];
    }
    if Collections.StrictlyIncreasing(ids) {
      forall i, j | 0 <= i < j < |r| ensures r[i] != r[j] {
        assert r[i].id == Some(ids[i]) && r[j].id == Some(ids[j]);
      }
    }
  }

  predicate NonIncreasingLikes(films: seq<Film>) {
    forall i, j :: 0 <= i < j < |films| ==> films[i].likes >= films[j].likes
  }

  function FilmIds(films: seq<Film>): set<int> {
    set f | f in films && f.id.Some? :: f.id.value
  }

  /** The ids of films listed in the order of an id sequence. */
  lemma FilmIdsOfIds(films: seq<Film>, ids: seq<int>)
    requires |films| == |ids|
    requires forall i :: 0 <= i < |films| ==> films[i].id == Some(ids[i])
    ensures FilmIds(films) == set x | x in ids
  {
    forall x | x in ids ensures x in FilmIds(films) {
      var i :| 0 <= i < |ids| && ids[i] == x;
      assert films[i] in films;
    }
  }

  /** Ascending `ByLikesDesc` order is non-increasing like order. */
  lemma LikesOrder(films: seq<Film>)
    requires Collections.SortedBy(films, ByLikesDesc)
    ensures NonIncreasingLikes(films)
  {
    assert forall i, j :: 0 <= i < j < |films| ==> ByLikesDesc(films[i]) <= ByLikesDesc(films[j]);
  }

  /** The first `count` films by likes: drawn from `films`, most liked
      first, and no film left out has more likes than one kept. */
  lemma TopLiked(films: seq<Film>, count: nat)
    ensures var top := Collections.TopBy(films, ByLikesDesc, count);
      NonIncreasingLikes(top)
      && (forall f :: f in top ==> f in films)
      && (forall f, g :: f in films && f !in top && g in top ==> f.likes <= g.likes)
  {
    var top := Collections.TopBy(films, ByLikesDesc, count);
    LikesOrder(top);
    Collections.SubMultisetMembers(top, films);
    forall f, g | f in films && f !in top && g in top ensures f.likes <= g.likes {
      assert ByLikesDesc(g) <= ByLikesDesc(f);
    }
  }

  /** Sorting by likes keeps the films and orders them most liked first. */
  lemma SortedByLikes(films: seq<Film>)
    requires |FilmIds(films)| == |films|
    ensures var sorted := Collections.SortBy(films, ByLikesDesc);
      FilmIds(sorted) == FilmIds(films) && |FilmIds(sorted)| == |sorted| && NonIncreasingLikes(sorted)
  {
    var sorted := Collections.SortBy(films, ByLikesDesc);
    DistinctIdsPermutation(films, sorted);
    assert Collections.SortedBy(sorted, ByLikesDesc);
    assert forall i, j :: 0 <= i < j < |sorted| ==> ByLikesDesc(sorted[i]) <= ByLikesDesc(sorted[j]);
  }

  /** Films with pairwise distinct ids: as many films as ids. */
  lemma DistinctIds(films: seq<Film>, ids: seq<int>)
    requires |films| == |ids| && Collections.StrictlyIncreasing(ids)
    requires forall i :: 0 <= i < |films| ==> films[i].id == Some(ids[i])
    ensures |FilmIds(films)| == |films|
  {
    FilmIdsOfIds(films, ids);
    Collections.IncreasingCard(ids);
  }

  /** Reordering keeps the ids and the number of films. */
  lemma DistinctIdsPermutation(a: seq<Film>, b: seq<Film>)
    requires multiset(a) == multiset(b) && |FilmIds(a)| == |a|
    ensures |FilmIds(b)| == |b| && FilmIds(b) == FilmIds(a)
  {
    assert |a| == |multiset(a)| == |multiset(b)| == |b|;
    forall f ensures f in a <==> f in b {
      assert f in a <==> f in multiset(a);
      assert f in b <==> f in multiset(b);
    }
    forall x | x in FilmIds(a) ensures x in FilmIds(b) {
      var f :| f in a && f.id == Some(x);
    }
    forall x | x in FilmIds(b) ensures x in FilmIds(a) {
      var f :| f in b && f.id == Some(x);
    }
    assert FilmIds(b) == FilmIds(a);
  }
}
