/** The older `UserController` that kept users in its own map: ids are
    handed out as the map's size plus one, and an update merges the
    non-null fields of the request into the stored user. */
module UserController {
  import opened Wrappers
  import opened Errors
  import opened Model
  import opened Collections
  import UserService

  /** The stored user after `update`: every field the request sets is
      taken from it, every field it leaves null is kept. */
  function Merge(stored: User, patch: User): (r: User)
    ensures r.id == stored.id
    ensures r.email == (if patch.email.Some? then patch.email else stored.email)
    ensures r.login == (if patch.login.Some? then patch.login else stored.login)
    ensures r.name == (if patch.name.Some? then patch.name else stored.name)
    ensures r.birthday == (if patch.birthday.Some? then patch.birthday else stored.birthday)
  {
    var stored := if patch.email.Some? then stored.(email := patch.email) else stored;
    var stored := if patch.login.Some? then stored.(login := patch.login) else stored;
    var stored := if patch.name.Some? then stored.(name := patch.name) else stored;
    if patch.birthday.Some? then stored.(birthday := patch.birthday) else stored
  }

  /** Sending the same update twice changes nothing the second time, and
      an update that sets no field keeps the stored user. */
  lemma MergeIdempotent(stored: User, patch: User)
    ensures Merge(Merge(stored, patch), patch) == Merge(stored, patch)
    ensures patch.email.None? && patch.login.None? && patch.name.None? && patch.birthday.None? ==>
      Merge(stored, patch) == stored
  {
    var once := Merge(stored, patch);
    var twice := Merge(once, patch);
    assert twice.id == once.id && twice.email == once.email && twice.login == once.login;
    assert twice.name == once.name && twice.birthday == once.birthday;
  }

  class Registry {
    var users: map<int, User>

    /** The keys are exactly 1..|users| and every user carries its key. */
    ghost predicate Valid()
      reads this
    {
      forall k :: k in users ==> 1 <= k <= |users| && users[k].id == Some(k)
    }

    constructor ()
      ensures Valid() && users == map[]
    {
      users := map[];
    }

    /** `getAll()`: the stored users (in ascending id order). */
    function GetAll(): (r: seq<User>)
      reads this
      ensures |r| == |users|
      ensures forall u :: u in r <==> u in users.Values
    {
      MapValues(users)
    }

    /** `create(user)`: the user gets the id |users| + 1, is named after
        the login when it has no name, and is stored. */
    method Create(user: User) returns (created: User)
      requires Valid()
      modifies this
      ensures Valid()
      ensures created == UserService.WithDefaultName(user).(id := Some(|old(users)| + 1))
      ensures |old(users)| + 1 !in old(users)
      ensures users == old(users)[|old(users)| + 1 := created]
      ensures |users| == |old(users)| + 1
    {
      var id := |users| + 1;
      assert id !in users;
      created := UserService.WithDefaultName(user.(id := Some(id)));
      users := users[id := created];
    }

    /** `update(user)`: refuses a request without an id or with an unknown
        id; otherwise merges the request into the stored user and returns
        the result. */
    method Update(user: User) returns (r: Result<User, Error>)
      requires Valid()
      modifies this
      ensures Valid()
      ensures user.id.None? ==> r == Fail(Validation(IdRequired)) && users == old(users)
      ensures user.id.Some? && user.id.value !in old(users) ==>
        r == Fail(NotFound(UserEntity, user.id.value)) && users == old(users)
      ensures user.id.Some? && user.id.value in old(users) ==>
        var merged := Merge(old(users)[user.id.value], user);
        r == Ok(merged) && users == old(users)[user.id.value := merged]
    {
      if user.id.None? {
        return Fail(Validation(IdRequired));
      }
      var id := user.id.value;
      if id !in users {
        return Fail(NotFound(UserEntity, id));
      }
      var merged := Merge(users[id], user);
      users := users[id := merged];
      r := Ok(merged);
    }
  }
}
