/** `UserService`: the name defaulting and id check in front of the user
    storage, and the cascade of a user delete into the user's reviews. */
module UserService {
  import opened Wrappers
  import opened Errors
  import opened Model
  import opened Schema
  import UserDbStorage
  import ReviewDbStorage

  /** A user without a name is named after the login. */
  function WithDefaultName(u: User): (r: User)
    ensures u.name.Some? ==> r == u
    ensures u.name.None? ==> r.name == u.login
    ensures r.(name := u.name) == u
    ensures r.name.Some? <==> u.name.Some? || u.login.Some?
  {
    if u.name.None? then u.(name := u.login) else u
  }

  /** `create(user)`: the defaulted user is stored under a new key. */
  method Create(db: Database, user: User) returns (created: User)
    modifies db`users
    ensures created.id.Some? && created.id.value !in old(db.users)
    ensures db.users == old(db.users)[created.id.value := RowOf(WithDefaultName(user))]
    ensures created == WithDefaultName(user).(id := created.id)
    ensures created.name == (if user.name.None? then user.login else user.name)
  {
    created := UserDbStorage.Create(db, WithDefaultName(user));
  }

  /** `update(user)`: a user without an id is refused before the storage is
      asked; a missing name is defaulted to the login before the row is
      overwritten. */
  method Update(db: Database, user: User) returns (r: Result<User, Error>)
    modifies db`users
    ensures user.id.None? ==> r == Fail(Validation(IdRequired)) && db.users == old(db.users)
    ensures user.id.Some? && user.id.value !in old(db.users) ==>
      r == Fail(NotFound(UserEntity, user.id.value)) && db.users == old(db.users)
    ensures user.id.Some? && user.id.value in old(db.users) ==>
      db.users == old(db.users)[user.id.value := RowOf(WithDefaultName(user))] &&
      r == Ok(WithDefaultName(user))
  {
    if user.id.None? {
      return Fail(Validation(IdRequired));
    }
    r := UserDbStorage.Update(db, WithDefaultName(user));
  }

  /** `delete(userId)`: the user's reviews and the ratings the user gave go
      first, then the user's likes, sent requests and row. */
  method Delete(db: Database, userId: int) returns (r: Outcome<Error>)
    modifies db`ratings, db`reviews, db`likes, db`requests, db`users
    ensures r == old(UserDbStorage.CheckUserExists(db, userId))
    ensures r.Failure? ==>
      db.ratings == old(db.ratings) && db.reviews == old(db.reviews) &&
      db.likes == old(db.likes) && db.requests == old(db.requests) && db.users == old(db.users)
    ensures r.Pass? ==>
      (forall k :: k in db.ratings <==> k in old(db.ratings) && k.userId != userId) &&
      db.reviews == ReviewDbStorage.NotByUser(old(db.reviews), userId) &&
      db.likes == (set l | l in old(db.likes) && l.userId != userId) &&
      db.requests == (map e | e in old(db.requests) && e.userId != userId :: old(db.requests)[e]) &&
      db.users == old(db.users) - {userId}
  {
    r := ReviewDbStorage.DeleteByUserId(db, userId);
    if r.Failure? {
      return;
    }
    var deleted := UserDbStorage.Delete(db, userId);
    assert deleted.Pass?;
  }
}
