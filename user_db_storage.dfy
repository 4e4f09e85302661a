/** The user storage backed by the database: the `users` table, the
    friend-request state machine on `users_friends_requests`, the friend
    queries, and the single-neighbour film recommendation. */
module UserDbStorage {
  import opened Wrappers
  import opened Errors
  import opened Model
  import opened Schema
  import opened Collections
  import FriendRequests

  // ---------------------------------------------------------------------
  // Existence checks

  /** `checkUserExists(id)`. */
  function CheckUserExists(db: Database, id: int): (r: Outcome<Error>)
    reads db`users
    ensures r.Pass? <==> id in db.users
    ensures r.Failure? ==> r.error == NotFound(UserEntity, id)
  {
    if id in db.users then Pass else Failure(NotFound(UserEntity, id))
  }

  /** `checkUserExists(a); checkUserExists(b);` */
  function CheckUsersExist(db: Database, a: int, b: int): (r: Outcome<Error>)
    reads db`users
    ensures r.Pass? <==> a in db.users && b in db.users
    ensures a !in db.users ==> r == Failure(NotFound(UserEntity, a))
    ensures a in db.users && b !in db.users ==> r == Failure(NotFound(UserEntity, b))
  {
    if a !in db.users then CheckUserExists(db, a) else CheckUserExists(db, b)
  }

  // ---------------------------------------------------------------------
  // The request table as a state machine

  /** The table after `addFriend(u, f)` once both users exist. */
  function AddFriendNext(t: map<Edge, Status>, u: int, f: int): map<Edge, Status> {
    if Edge(u, f) in t then t
    else if Edge(f, u) in t then
      if t[Edge(f, u)] == UNAPPROVED then t[Edge(f, u) := APPROVED] else t
    else t[Edge(u, f) := UNAPPROVED]
  }

  /** The table after `deleteFriend(u, f)` once both users exist. */
  function DeleteFriendNext(t: map<Edge, Status>, u: int, f: int): map<Edge, Status> {
    if Edge(u, f) in t then
      if t[Edge(u, f)] == UNAPPROVED then t - {Edge(u, f)}
      else (t - {Edge(u, f)})[Edge(f, u) := UNAPPROVED]
    else if Edge(f, u) in t && t[Edge(f, u)] == APPROVED then t[Edge(f, u) := UNAPPROVED]
    else t
  }

  /** At most one row for each unordered pair of distinct users. */
  predicate OnePerPair(t: map<Edge, Status>) {
    forall e :: e in t && e.userId != e.friendId ==> Edge(e.friendId, e.userId) !in t
  }

  /** A user's request to themself is never approved. */
  predicate NoApprovedSelf(t: map<Edge, Status>) {
    forall e :: e in t && e.userId == e.friendId ==> t[e] == UNAPPROVED
  }

  /** The invariant the two transitions keep. */
  predicate WellFormed(t: map<Edge, Status>) {
    OnePerPair(t) && NoApprovedSelf(t)
  }

  lemma AddFriendPreservesWellFormed(t: map<Edge, Status>, u: int, f: int)
    requires WellFormed(t)
    ensures WellFormed(AddFriendNext(t, u, f))
  {
  }

  lemma DeleteFriendPreservesWellFormed(t: map<Edge, Status>, u: int, f: int)
    requires WellFormed(t)
    ensures WellFormed(DeleteFriendNext(t, u, f))
  {
    var t' := DeleteFriendNext(t, u, f);
    if Edge(u, f) in t && t[Edge(u, f)] == APPROVED {
      assert u != f;
      forall e | e in t' && e.userId != e.friendId
        ensures Edge(e.friendId, e.userId) !in t'
      {
        if e != Edge(f, u) && Edge(e.friendId, e.userId) != Edge(f, u) {
          assert e in t;
        }
      }
    }
  }

  /** A second `addFriend(u, f)` changes nothing. */
  lemma AddFriendIdempotent(t: map<Edge, Status>, u: int, f: int)
    ensures AddFriendNext(AddFriendNext(t, u, f), u, f) == AddFriendNext(t, u, f)
  {
  }

  /** A second `deleteFriend(u, f)` changes nothing. */
  lemma DeleteFriendIdempotent(t: map<Edge, Status>, u: int, f: int)
    requires WellFormed(t)
    ensures DeleteFriendNext(DeleteFriendNext(t, u, f), u, f) == DeleteFriendNext(t, u, f)
  {
    if Edge(u, f) in t {
      assert u != f ==> Edge(f, u) !in t;
    }
  }

  // ---------------------------------------------------------------------
  // An independent view: the state of one unordered pair of users

  /** What the table says about the pair {a, b}: nothing, a pending request
      `from` one user `to` the other, or a mutual friendship. */
  datatype Pair = NoRequest | Pending(from: int, to: int) | Mutual

  function PairOf(t: map<Edge, Status>, a: int, b: int): Pair {
    if Edge(a, b) in t then (if t[Edge(a, b)] == APPROVED then Mutual else Pending(a, b))
    else if Edge(b, a) in t then (if t[Edge(b, a)] == APPROVED then Mutual else Pending(b, a))
    else NoRequest
  }

  /** `addFriend(u, f)` on the pair {u, f}: a first request becomes pending
      and answering the other user's pending request makes it mutual. */
  function PairAfterAdd(p: Pair, u: int, f: int): Pair {
    match p
    case NoRequest => Pending(u, f)
    case Pending(from, _) => if from == u then p else Mutual
    case Mutual => Mutual
  }

  /** `deleteFriend(u, f)` on the pair {u, f}: withdrawing one's own pending
      request removes it, and leaving a mutual friendship turns it into a
      pending request of the other user. */
  function PairAfterDelete(p: Pair, u: int, f: int): Pair {
    match p
    case NoRequest => NoRequest
    case Pending(from, _) => if from == u then NoRequest else p
    case Mutual => Pending(f, u)
  }

  predicate SamePair(a: int, b: int, u: int, f: int) {
    (a == u && b == f) || (a == f && b == u)
  }

  lemma PairOfSymmetric(t: map<Edge, Status>, a: int, b: int)
    requires WellFormed(t)
    ensures PairOf(t, a, b) == PairOf(t, b, a)
  {
  }

  /** `addFriend(u, f)` acts on the pair {u, f} as `PairAfterAdd` and leaves
      every other pair as it was. */
  lemma AddFriendRefines(t: map<Edge, Status>, u: int, f: int, a: int, b: int)
    requires WellFormed(t)
    ensures PairOf(AddFriendNext(t, u, f), a, b) ==
      if SamePair(a, b, u, f) then PairAfterAdd(PairOf(t, u, f), u, f) else PairOf(t, a, b)
  {
    AddFriendPreservesWellFormed(t, u, f);
    if SamePair(a, b, u, f) {
      PairOfSymmetric(t, u, f);
      PairOfSymmetric(AddFriendNext(t, u, f), u, f);
    }
  }

  /** `deleteFriend(u, f)` acts on the pair {u, f} as `PairAfterDelete` and
      leaves every other pair as it was. */
  lemma DeleteFriendRefines(t: map<Edge, Status>, u: int, f: int, a: int, b: int)
    requires WellFormed(t)
    ensures PairOf(DeleteFriendNext(t, u, f), a, b) ==
      if SamePair(a, b, u, f) then PairAfterDelete(PairOf(t, u, f), u, f) else PairOf(t, a, b)
  {
    DeleteFriendPreservesWellFormed(t, u, f);
    if SamePair(a, b, u, f) {
      PairOfSymmetric(t, u, f);
      PairOfSymmetric(DeleteFriendNext(t, u, f), u, f);
    }
  }

  // ---------------------------------------------------------------------
  // Friend lists

  /** The ids the friend subquery selects for `u`: every user `u` sent a
      request to, whatever its status, and every user whose request to `u`
      is approved. */
  function FriendIds(t: map<Edge, Status>, u: int): set<int> {
    (set e | e in t && e.userId == u :: e.friendId)
    + (set e | e in t && e.friendId == u && t[e] == APPROVED :: e.userId)
  }

  /** In the pair view: `x` is a friend of `u` when `u`'s request to `x` is
      pending or the two are mutual friends. */
  lemma FriendIdsByPair(t: map<Edge, Status>, u: int, x: int)
    requires WellFormed(t)
    ensures x in FriendIds(t, u) <==> PairOf(t, u, x) == Pending(u, x) || PairOf(t, u, x) == Mutual
  {
    if Edge(u, x) in t {
      assert x in (set e | e in t && e.userId == u :: e.friendId);
    } else if Edge(x, u) in t && t[Edge(x, u)] == APPROVED {
      assert x in (set e | e in t && e.friendId == u && t[e] == APPROVED :: e.userId);
    }
  }

  /** After `addFriend(a, b)`, `b` is among `a`'s friends. */
  lemma FriendAfterAdd(t: map<Edge, Status>, a: int, b: int)
    ensures b in FriendIds(AddFriendNext(t, a, b), a)
  {
    var t' := AddFriendNext(t, a, b);
    if Edge(a, b) in t' {
      assert b in (set e | e in t' && e.userId == a :: e.friendId);
    } else {
      assert b in (set e | e in t' && e.friendId == a && t'[e] == APPROVED :: e.userId);
    }
  }

  /** A one-sided request does not make the requester a friend of the
      other user. */
  lemma NoReverseFriendAfterAdd(t: map<Edge, Status>, a: int, b: int)
    requires WellFormed(t) && a != b
    requires a !in FriendIds(t, b)
    ensures a !in FriendIds(AddFriendNext(t, a, b), b)
  {
    var t' := AddFriendNext(t, a, b);
    FriendIdsByPair(t, b, a);
    AddFriendPreservesWellFormed(t, a, b);
    FriendIdsByPair(t', b, a);
    AddFriendRefines(t, a, b, b, a);
    PairOfSymmetric(t, a, b);
  }

  /** After `deleteFriend(a, b)`, `b` is no longer among `a`'s friends. */
  lemma NoFriendAfterDelete(t: map<Edge, Status>, a: int, b: int)
    requires WellFormed(t)
    ensures b !in FriendIds(DeleteFriendNext(t, a, b), a)
  {
    var t' := DeleteFriendNext(t, a, b);
    DeleteFriendPreservesWellFormed(t, a, b);
    FriendIdsByPair(t', a, b);
    DeleteFriendRefines(t, a, b, a, b);
  }

  /** Requests in both directions make a mutual friendship. */
  lemma MutualAfterAddingBoth(t: map<Edge, Status>, a: int, b: int)
    requires WellFormed(t) && a != b
    ensures PairOf(AddFriendNext(AddFriendNext(t, a, b), b, a), a, b) == Mutual
  {
    var t1 := AddFriendNext(t, a, b);
    AddFriendRefines(t, a, b, a, b);
    AddFriendPreservesWellFormed(t, a, b);
    AddFriendRefines(t1, b, a, a, b);
    PairOfSymmetric(t1, a, b);
  }

  /** When a mutual friend `a` deletes `b`, `a` stays among `b`'s friends:
      `b`'s side of the friendship becomes a pending request. */
  lemma FriendRemainsAfterDelete(t: map<Edge, Status>, a: int, b: int)
    requires WellFormed(t) && a != b
    requires PairOf(t, a, b) == Mutual
    ensures a in FriendIds(DeleteFriendNext(t, a, b), b)
    ensures b !in FriendIds(DeleteFriendNext(t, a, b), a)
  {
    var t' := DeleteFriendNext(t, a, b);
    DeleteFriendRefines(t, a, b, b, a);
    DeleteFriendPreservesWellFormed(t, a, b);
    FriendIdsByPair(t', b, a);
    NoFriendAfterDelete(t, a, b);
  }

  // ---------------------------------------------------------------------
  // The operations

  /** `addFriend(userId, friendId)`. */
  method AddFriend(db: Database, userId: int, friendId: int) returns (r: Outcome<Error>)
    modifies db`requests
    ensures r == CheckUsersExist(db, userId, friendId)
    ensures r.Pass? ==> db.requests == AddFriendNext(old(db.requests), userId, friendId)
    ensures r.Failure? ==> db.requests == old(db.requests)
  {
    r := CheckUsersExist(db, userId, friendId);
    if r.Failure? {
      return;
    }
    if FriendRequests.Get(db, userId, friendId).Some? {
      return;
    }
    var back := FriendRequests.Get(db, friendId, userId);
    match back {
      case Some(s) =>
        if s == UNAPPROVED {
          FriendRequests.Update(db, friendId, userId, APPROVED);
        }
      case None =>
        FriendRequests.Create(db, userId, friendId, UNAPPROVED);
    }
  }

  /** `deleteFriend(userId, friendId)`. */
  method DeleteFriend(db: Database, userId: int, friendId: int) returns (r: Outcome<Error>)
    modifies db`requests
    ensures r == CheckUsersExist(db, userId, friendId)
    ensures r.Pass? ==> db.requests == DeleteFriendNext(old(db.requests), userId, friendId)
    ensures r.Failure? ==> db.requests == old(db.requests)
  {
    r := CheckUsersExist(db, userId, friendId);
    if r.Failure? {
      return;
    }
    var forward := FriendRequests.Get(db, userId, friendId);
    match forward {
      case Some(s) =>
        if s == UNAPPROVED {
          FriendRequests.Delete(db, userId, friendId);
        } else {
          FriendRequests.Delete(db, userId, friendId);
          FriendRequests.Create(db, friendId, userId, UNAPPROVED);
        }
      case None =>
        var back := FriendRequests.Get(db, friendId, userId);
        if back == Some(APPROVED) {
          FriendRequests.Update(db, friendId, userId, UNAPPROVED);
        }
    }
  }

  /** `getFriends(userId)`: the users table rows whose id the friend
      subquery selects. */
  function GetFriends(db: Database, userId: int): (r: Result<seq<User>, Error>)
    reads db`users, db`requests
    ensures r.Fail? <==> userId !in db.users
    ensures r.Fail? ==> r.error == NotFound(UserEntity, userId)
    ensures r.Ok? ==> IdsOf(r.value) == FriendIds(db.requests, userId) * db.users.Keys
  {
    if userId !in db.users then Fail(NotFound(UserEntity, userId))
    else Ok(UsersOf(db.users, FriendIds(db.requests, userId)))
  }

  /** `getCommonFriends(userId, otherId)`. */
  function GetCommonFriends(db: Database, userId: int, otherId: int): (r: Result<seq<User>, Error>)
    reads db`users, db`requests
    ensures r.Fail? <==> CheckUsersExist(db, userId, otherId).Failure?
    ensures r.Fail? ==> r.error == CheckUsersExist(db, userId, otherId).error
  {
    var check := CheckUsersExist(db, userId, otherId);
    if check.Failure? then Fail(check.error)
    else Ok(UsersOf(db.users, FriendIds(db.requests, userId) * FriendIds(db.requests, otherId)))
  }

  /** The common friends are the intersection of the two friend lists, and
      the query is symmetric. */
  lemma CommonFriendsIntersect(db: Database, u: int, v: int)
    requires u in db.users && v in db.users
    ensures GetCommonFriends(db, u, v).Ok? && GetFriends(db, u).Ok? && GetFriends(db, v).Ok?
    ensures IdsOf(GetCommonFriends(db, u, v).value) ==
      IdsOf(GetFriends(db, u).value) * IdsOf(GetFriends(db, v).value)
    ensures GetCommonFriends(db, u, v) == GetCommonFriends(db, v, u)
  {
    assert FriendIds(db.requests, u) * FriendIds(db.requests, v)
        == FriendIds(db.requests, v) * FriendIds(db.requests, u);
  }

  /** `getById(id)`. */
  function GetById(db: Database, id: int): (r: Result<User, Error>)
    reads db`users
    ensures r.Fail? <==> id !in db.users
    ensures r.Fail? ==> r.error == NotFound(UserEntity, id)
    ensures r.Ok? ==> r.value.id == Some(id) && RowOf(r.value) == db.users[id]
  {
    if id in db.users then Ok(UserOf(id, db.users[id])) else Fail(NotFound(UserEntity, id))
  }

  /** `getAll()`: every stored user, in ascending id order. */
  function GetAll(db: Database): (r: seq<User>)
    reads db`users
    ensures |r| == |db.users| && IdsOf(r) == db.users.Keys
  {
    assert db.users.Keys * db.users.Keys == db.users.Keys;
    UsersOf(db.users, db.users.Keys)
  }

  /** `create(user)`: inserts a row under a new key and returns it. */
  method Create(db: Database, user: User) returns (created: User)
    modifies db`users
    ensures created.id.Some? && created.id.value !in old(db.users)
    ensures db.users == old(db.users)[created.id.value := RowOf(user)]
    ensures created == UserOf(created.id.value, RowOf(user))
  {
    var id := NextKey(db.users.Keys);
    db.users := db.users[id := RowOf(user)];
    created := UserOf(id, db.users[id]);
  }

  /** `update(user)`: overwrites the columns of an existing user. */
  method Update(db: Database, user: User) returns (r: Result<User, Error>)
    requires user.id.Some?
    modifies db`users
    ensures user.id.value !in old(db.users) ==> r == Fail(NotFound(UserEntity, user.id.value)) && db.users == old(db.users)
    ensures user.id.value in old(db.users) ==>
      db.users == old(db.users)[user.id.value := RowOf(user)] && r == Ok(UserOf(user.id.value, RowOf(user)))
  {
    var id := user.id.value;
    var check := CheckUserExists(db, id);
    if check.Failure? {
      return Fail(check.error);
    }
    db.users := db.users[id := RowOf(user)];
    r := GetById(db, id);
  }

  /** `delete(user)`: removes the user's likes, the requests the user sent,
      and the user's row. Requests other users sent to the user stay. */
  method Delete(db: Database, userId: int) returns (r: Outcome<Error>)
    modifies db`likes, db`requests, db`users
    ensures r == old(CheckUserExists(db, userId))
    ensures r.Failure? ==> db.likes == old(db.likes) && db.requests == old(db.requests) && db.users == old(db.users)
    ensures r.Pass? ==>
      db.likes == (set l | l in old(db.likes) && l.userId != userId) &&
      db.requests == (map e | e in old(db.requests) && e.userId != userId :: old(db.requests)[e]) &&
      db.users == old(db.users) - {userId}
  {
    r := CheckUserExists(db, userId);
    if r.Failure? {
      return;
    }
    db.likes := set l | l in db.likes && l.userId != userId;
    db.requests := map e | e in db.requests && e.userId != userId :: db.requests[e];
    db.users := db.users - {userId};
  }

  // ---------------------------------------------------------------------
  // Recommendations

  /** The number of films both `u` and `v` liked (the `COUNT` of the
      self-join of `users_films_likes`). */
  function SharedLikes(likes: set<Like>, u: int, v: int): nat {
    |LikedBy(likes, u) * LikedBy(likes, v)|
  }

  /** The users other than `u` who liked at least one film `u` liked: the
      groups of the neighbour query. */
  function Candidates(likes: set<Like>, u: int): (c: set<int>)
    ensures forall v :: v in c <==> v != u && SharedLikes(likes, u, v) > 0
  {
    var c := set l | l in likes && l.userId != u && l.filmId in LikedBy(likes, u) :: l.userId;
    assert forall v :: v in c <==> v != u && SharedLikes(likes, u, v) > 0 by {
      forall v ensures v in c <==> v != u && SharedLikes(likes, u, v) > 0 {
        if v in c {
          var l :| l in likes && l.userId != u && l.filmId in LikedBy(likes, u) && l.userId == v;
          assert l.filmId in LikedBy(likes, u) * LikedBy(likes, v);
        }
        if v != u && SharedLikes(likes, u, v) > 0 {
          var shared := LikedBy(likes, u) * LikedBy(likes, v);
          var f :| f in shared;
          var l :| l in likes && l.userId == v && l.filmId == f;
          assert l.userId in c;
        }
      }
    }
    c
  }

  /** The user the neighbour query picks: one sharing the most liked films
      with `u` (on a tie the model takes the least id). */
  function Neighbour(likes: set<Like>, u: int): (n: int)
    requires Candidates(likes, u) != {}
    ensures n != u && SharedLikes(likes, u, n) > 0
    ensures forall v :: v != u ==> SharedLikes(likes, u, v) <= SharedLikes(likes, u, n)
  {
    var candidates := Candidates(likes, u);
    var n := ArgMax(candidates, v => SharedLikes(likes, u, v));
    assert forall v :: v != u && SharedLikes(likes, u, v) > 0 ==> v in candidates;
    n
  }

  /** The stored films `n` liked and `u` did not, in ascending id order. */
  function RecommendedIds(db: Database, n: int, u: int): (ids: seq<int>)
    reads db`likes, db`films
    ensures StrictlyIncreasing(ids)
    ensures forall x :: x in ids <==> x in (LikedBy(db.likes, n) - LikedBy(db.likes, u)) * db.films.Keys
    ensures forall i :: 0 <= i < |ids| ==> ids[i] in db.films
  {
    var ids := Ascending((LikedBy(db.likes, n) - LikedBy(db.likes, u)) * db.films.Keys);
    assert forall i :: 0 <= i < |ids| ==> ids[i] in ids;
    ids
  }

  /** `getRecommendations(userId)`: take the user who shares the most liked
      films with `userId` and return the films that user liked and `userId`
      did not, most liked first. When nobody shares a like, the first query
      returns no row and `get(0)` throws. The films are read as the film
      queries read them, which is what the last query evidently intends;
      `GetRecommendationsAsWritten` is the query as it stands. */
  function GetRecommendations(db: Database, userId: int): (r: Result<seq<Film>, Error>)
    reads db`likes, db`films, db`mpa, db`genres, db`directors, db`filmsGenres, db`filmsDirectors
    ensures r.Fail? <==> Candidates(db.likes, userId) == {}
    ensures r.Fail? ==> r.error == IndexOutOfBounds(0, 0)
  {
    if Candidates(db.likes, userId) == {} then Fail(IndexOutOfBounds(0, 0))
    else
      var n := Neighbour(db.likes, userId);
      Ok(SortBy(FilmsFrom(db, RecommendedIds(db, n, userId), db.filmsGenres, db.filmsDirectors), ByLikesDesc))
  }

  /** What a successful recommendation is: there is a user other than
      `userId` who shares a maximal number of likes with `userId`, and the
      result lists exactly the stored films that user liked and `userId`
      did not, once each, each with all of its links, in non-increasing like
      order. */
  lemma RecommendationsSpec(db: Database, userId: int)
    requires GetRecommendations(db, userId).Ok?
    ensures var films := GetRecommendations(db, userId).value;
      exists n :: n != userId && SharedLikes(db.likes, userId, n) > 0
        && (forall v :: v != userId ==> SharedLikes(db.likes, userId, v) <= SharedLikes(db.likes, userId, n))
        && FilmIds(films) == (LikedBy(db.likes, n) - LikedBy(db.likes, userId)) * db.films.Keys
        && |films| == |FilmIds(films)|
        && NonIncreasingLikes(films)
    ensures forall f :: f in GetRecommendations(db, userId).value ==>
      f.id.Some? && f.id.value in db.films && f == FilmAt(db, f.id.value)
  {
    var n := Neighbour(db.likes, userId);
    var ids := RecommendedIds(db, n, userId);
    var films := SortBy(FilmsFrom(db, ids, db.filmsGenres, db.filmsDirectors), ByLikesDesc);
    assert GetRecommendations(db, userId).value == films;
    SortedFilmsAt(db, ids);
    AscendingSet((LikedBy(db.likes, n) - LikedBy(db.likes, userId)) * db.films.Keys);
    assert FilmIds(films) == (LikedBy(db.likes, n) - LikedBy(db.likes, userId)) * db.films.Keys;
  }

  /** The films of strictly increasing keys, most liked first: one film per
      key and no other, each as an unfiltered query reads it. */
  lemma SortedFilmsAt(db: Database, ids: seq<int>)
    requires StrictlyIncreasing(ids) && forall i :: 0 <= i < |ids| ==> ids[i] in db.films
    ensures var films := SortBy(FilmsFrom(db, ids, db.filmsGenres, db.filmsDirectors), ByLikesDesc);
      FilmIds(films) == (set x | x in ids) && |films| == |FilmIds(films)| && NonIncreasingLikes(films)
      && forall f :: f in films ==> f.id.Some? && f.id.value in db.films && f == FilmAt(db, f.id.value)
  {
    var read := FilmsFrom(db, ids, db.filmsGenres, db.filmsDirectors);
    FilmsFromIds(db, ids, db.filmsGenres, db.filmsDirectors);
    FilmsListed(db, ids, db.filmsGenres, db.filmsDirectors);
    SortedByLikes(read);
    SubMultisetMembers(SortBy(read, ByLikesDesc), read);
  }

  /** `getRecommendations(userId)` as it stands: its last query selects no
      `directors_ids` column, and `FilmMapper.mapRow` asks every row for
      one, so the first film row makes it throw. `IN ()` on an empty key
      list selects no row, and then nothing is mapped. */
  function GetRecommendationsAsWritten(db: Database, userId: int): (r: Result<seq<Film>, Error>)
    reads db`likes, db`films
    ensures Candidates(db.likes, userId) == {} ==> r == Fail(IndexOutOfBounds(0, 0))
    ensures r.Ok? ==> r.value == []
  {
    if Candidates(db.likes, userId) == {} then Fail(IndexOutOfBounds(0, 0))
    else if RecommendedIds(db, Neighbour(db.likes, userId), userId) == [] then Ok([])
    else Fail(ColumnNotFound("directors_ids"))
  }

  /** The query as it stands agrees with the intended one exactly when the
      intended one recommends nothing, and fails whenever it would recommend
      a film. */
  lemma RecommendationsAsWrittenFail(db: Database, userId: int)
    ensures var intended := GetRecommendations(db, userId);
      var written := GetRecommendationsAsWritten(db, userId);
      (intended.Ok? && intended.value != [] ==> written == Fail(ColumnNotFound("directors_ids")))
      && (intended.Fail? || intended.value == [] ==> written == intended)
  {
    if Candidates(db.likes, userId) != {} {
      var ids := RecommendedIds(db, Neighbour(db.likes, userId), userId);
      var read := FilmsFrom(db, ids, db.filmsGenres, db.filmsDirectors);
      var sorted := SortBy(read, ByLikesDesc);
      assert |sorted| == |multiset(sorted)| == |multiset(read)| == |ids|;
    }
  }

  /** The discrepancy on a concrete table: user 1 likes film 1 and user 2
      likes films 1 and 2. User 2 is the neighbour and film 2 is the one to
      recommend, so the query as it stands fails where the intended one
      lists film 2. */
  lemma RecommendationsAsWrittenExample(db: Database)
    requires db.likes == {Like(1, 1), Like(1, 2), Like(2, 2)}
    requires 1 in db.films && 2 in db.films
    ensures GetRecommendationsAsWritten(db, 1) == Fail(ColumnNotFound("directors_ids"))
    ensures GetRecommendations(db, 1).Ok? && |GetRecommendations(db, 1).value| == 1
  {
    assert LikedBy(db.likes, 1) == {1};
    assert LikedBy(db.likes, 2) == {1, 2};
    assert SharedLikes(db.likes, 1, 2) > 0 by {
      assert 1 in LikedBy(db.likes, 1) * LikedBy(db.likes, 2);
    }
    assert forall v :: v != 1 && v != 2 ==> LikedBy(db.likes, v) == {};
    var n := Neighbour(db.likes, 1);
    assert n == 2;
    assert (LikedBy(db.likes, n) - LikedBy(db.likes, 1)) * db.films.Keys == {2};
    RecommendationsSpec(db, 1);
    RecommendationsAsWrittenFail(db, 1);
  }
}
