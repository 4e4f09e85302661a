/** The older in-memory user storage: a map of users, a per-user map from
    friend id to request status, and an id counter. Approval is symmetric
    here, deletion of a friendship is two-sided, and a user's deletion
    leaves the friend maps alone. */
module InMemoryUserStorage {
  import opened Wrappers
  import opened Errors
  import opened Model
  import opened Collections
  import opened Schema

  type Friends = map<int, map<int, Status>>

  /** `usersFriends.get(u).get(f)`, with a missing inner map read as empty. */
  function StatusOf(fr: Friends, u: int, f: int): Option<Status> {
    if u in fr && f in fr[u] then Some(fr[u][f]) else None
  }

  /** `usersFriends.get(u).put(f, s)` after the inner map has been created. */
  function Put(fr: Friends, u: int, f: int, s: Status): Friends {
    fr[u := (if u in fr then fr[u] else map[])[f := s]]
  }

  /** `usersFriends.get(u).remove(f)` when the inner map exists. */
  function Remove(fr: Friends, u: int, f: int): Friends {
    if u in fr then fr[u := fr[u] - {f}] else fr
  }

  /** The friend maps after `addFriend(u, f)` once both users exist. */
  function AddFriendNext(fr: Friends, u: int, f: int): Friends {
    var fr1 := if u in fr then fr else fr[u := map[]];
    var fr2 := if f in fr1 then fr1 else fr1[f := map[]];
    var fr3 := if u in fr2[f] then Put(Put(fr2, u, f, APPROVED), f, u, APPROVED) else fr2;
    if f !in fr3[u] then Put(fr3, u, f, UNAPPROVED) else fr3
  }

  /** The friend maps after `deleteFriend(u, f)` once both users exist. */
  function DeleteFriendNext(fr: Friends, u: int, f: int): Friends {
    Remove(Remove(fr, u, f), f, u)
  }

  /** The ids in `u`'s map whose status is `APPROVED`. */
  function ApprovedIds(fr: Friends, u: int): set<int> {
    if u in fr then set f | f in fr[u] && fr[u][f] == APPROVED else {}
  }

  /** Approval is mutual: `u` holds `f` as approved exactly when `f` holds
      `u` as approved. */
  ghost predicate Symmetric(fr: Friends) {
    forall u, f :: StatusOf(fr, u, f) == Some(APPROVED) <==> StatusOf(fr, f, u) == Some(APPROVED)
  }

  /** `addFriend(u, f)` on the statuses: when `f` already holds `u` with any
      status both directions become approved; otherwise `u`'s entry for
      `f` becomes pending unless it was already there. No other entry
      changes. */
  lemma AddFriendStatuses(fr: Friends, u: int, f: int, a: int, b: int)
    ensures var next := AddFriendNext(fr, u, f);
      StatusOf(next, a, b) ==
        if StatusOf(fr, f, u).Some? && SameDirected(a, b, u, f) then Some(APPROVED)
        else if a == u && b == f then
          (if StatusOf(fr, u, f).Some? then StatusOf(fr, u, f) else Some(UNAPPROVED))
        else StatusOf(fr, a, b)
  {
  }

  predicate SameDirected(a: int, b: int, u: int, f: int) {
    (a == u && b == f) || (a == f && b == u)
  }

  /** `deleteFriend(u, f)` removes both directed entries and nothing else. */
  lemma DeleteFriendStatuses(fr: Friends, u: int, f: int, a: int, b: int)
    ensures var next := DeleteFriendNext(fr, u, f);
      StatusOf(next, a, b) == if SameDirected(a, b, u, f) then None else StatusOf(fr, a, b)
  {
  }

  /** `deleteFriend(u, f)` changes nothing when neither entry exists. */
  lemma DeleteFriendNoop(fr: Friends, u: int, f: int)
    requires StatusOf(fr, u, f).None? && StatusOf(fr, f, u).None?
    ensures DeleteFriendNext(fr, u, f) == fr
  {
    if u in fr {
      assert fr[u] - {f} == fr[u];
    }
    var fr1 := Remove(fr, u, f);
    assert fr1 == fr;
    if f in fr {
      assert fr[f] - {u} == fr[f];
    }
  }

  lemma AddFriendKeepsSymmetric(fr: Friends, u: int, f: int)
    requires Symmetric(fr)
    ensures Symmetric(AddFriendNext(fr, u, f))
  {
    var next := AddFriendNext(fr, u, f);
    forall a, b ensures StatusOf(next, a, b) == Some(APPROVED) <==> StatusOf(next, b, a) == Some(APPROVED) {
      AddFriendStatuses(fr, u, f, a, b);
      AddFriendStatuses(fr, u, f, b, a);
    }
  }

  lemma DeleteFriendKeepsSymmetric(fr: Friends, u: int, f: int)
    requires Symmetric(fr)
    ensures Symmetric(DeleteFriendNext(fr, u, f))
  {
    var next := DeleteFriendNext(fr, u, f);
    forall a, b ensures StatusOf(next, a, b) == Some(APPROVED) <==> StatusOf(next, b, a) == Some(APPROVED) {
      DeleteFriendStatuses(fr, u, f, a, b);
      DeleteFriendStatuses(fr, u, f, b, a);
    }
  }

  /** In a symmetric state the approved-friend relation is symmetric. */
  lemma FriendsSymmetric(fr: Friends, a: int, b: int)
    requires Symmetric(fr)
    ensures a in ApprovedIds(fr, b) <==> b in ApprovedIds(fr, a)
  {
    assert a in ApprovedIds(fr, b) <==> StatusOf(fr, b, a) == Some(APPROVED);
    assert b in ApprovedIds(fr, a) <==> StatusOf(fr, a, b) == Some(APPROVED);
  }

  /** The stored users with the given keys, in that order. */
  function UsersAt(users: map<int, User>, ids: seq<int>): (r: seq<User>)
    requires forall i :: 0 <= i < |ids| ==> ids[i] in users
    ensures |r| == |ids| && forall i :: 0 <= i < |ids| ==> r[i] == users[ids[i]]
  {
    seq(|ids|, i requires 0 <= i < |ids| => users[ids[i]])
  }

  /** The friend ids resolved through `getById`: the users in ascending id
      order, or `NotFound` for an id whose user was deleted (the least such
      id; the source meets them in hash order). */
  function Resolve(users: map<int, User>, ids: set<int>): (r: Result<seq<User>, Error>)
    ensures r.Fail? <==> !(ids <= users.Keys)
    ensures r.Fail? ==>
      r.error.NotFound? && r.error.entity == UserEntity && r.error.id in ids && r.error.id !in users
    ensures r.Ok? ==> |r.value| == |ids| && forall k :: k in ids ==> users[k] in r.value
  {
    var missing := ids - users.Keys;
    if missing != {} then Fail(NotFound(UserEntity, MinOf(missing)))
    else
      var keys := Ascending(ids);
      assert forall i :: 0 <= i < |keys| ==> keys[i] in keys;
      var r := UsersAt(users, keys);
      assert forall k :: k in ids ==> users[k] in r by {
        forall k | k in ids ensures users[k] in r {
          var i :| 0 <= i < |keys| && keys[i] == k;
        }
      }
      Ok(r)
  }

  class Storage {
    var users: map<int, User>
    var friends: Friends
    /** The source's counter is a static field, shared by every instance. */
    var nextId: int

    ghost predicate Valid()
      reads this
    {
      nextId >= 1 && (forall k :: k in users ==> k < nextId) && Symmetric(friends)
    }

    constructor ()
      ensures Valid() && users == map[] && friends == map[] && nextId == 1
    {
      users := map[];
      friends := map[];
      nextId := 1;
    }

    /** `getAll()`: the stored users (in ascending id order). */
    function GetAll(): (r: seq<User>)
      reads this`users
      ensures |r| == |users| && forall k :: k in users ==> users[k] in r
      ensures forall u :: u in r <==> u in users.Values
    {
      MapValues(users)
    }

    /** `checkUserExists(id)`: "user with id %d not found". */
    function CheckUserExists(id: int): (r: Outcome<Error>)
      reads this`users
      ensures r.Pass? <==> id in users
      ensures r.Failure? ==> r.error == NotFound(UserEntity, id)
    {
      if id in users then Pass else Failure(NotFound(UserEntity, id))
    }

    function CheckUsersExist(a: int, b: int): (r: Outcome<Error>)
      reads this`users
      ensures r.Pass? <==> a in users && b in users
      ensures a !in users ==> r == Failure(NotFound(UserEntity, a))
      ensures a in users && b !in users ==> r == Failure(NotFound(UserEntity, b))
    {
      if a !in users then CheckUserExists(a) else CheckUserExists(b)
    }

    /** `getById(id)`. */
    function GetById(id: int): (r: Result<User, Error>)
      reads this`users
      ensures r.Fail? <==> id !in users
      ensures r.Fail? ==> r.error == NotFound(UserEntity, id)
      ensures r.Ok? ==> r.value == users[id]
    {
      if id in users then Ok(users[id]) else Fail(NotFound(UserEntity, id))
    }

    /** `create(user)`: stores the user under the counter's value and
      advances the counter, so every new id exceeds all earlier ones. */
    method Create(user: User) returns (created: User)
      requires Valid()
      modifies this`users, this`nextId
      ensures Valid()
      ensures created == user.(id := Some(old(nextId)))
      ensures old(nextId) !in old(users)
      ensures users == old(users)[old(nextId) := created]
      ensures nextId == old(nextId) + 1
      ensures forall k :: k in old(users) ==> k < created.id.value
    {
      created := user.(id := Some(nextId));
      users := users[nextId := created];
      nextId := nextId + 1;
    }

    /** `update(user)`: replaces the stored user with that id; every other
      user is unchanged. */
    method Update(user: User) returns (r: Result<User, Error>)
      requires Valid() && user.id.Some?
      modifies this`users
      ensures Valid()
      ensures user.id.value !in old(users) ==> r == Fail(NotFound(UserEntity, user.id.value)) && users == old(users)
      ensures user.id.value in old(users) ==> r == Ok(user) && users == old(users)[user.id.value := user]
      ensures forall k :: k in old(users) && k != user.id.value ==> k in users && users[k] == old(users)[k]
    {
      var check := CheckUserExists(user.id.value);
      if check.Failure? {
        return Fail(check.error);
      }
      users := users[user.id.value := user];
      r := Ok(user);
    }

    /** `delete(user)`: removes the user from the users map only; the
      friend maps keep any entries for the id. */
    method Delete(id: int) returns (r: Result<User, Error>)
      requires Valid()
      modifies this`users
      ensures Valid()
      ensures id !in old(users) ==> r == Fail(NotFound(UserEntity, id)) && users == old(users)
      ensures id in old(users) ==> r == Ok(old(users)[id]) && users == old(users) - {id}
    {
      var check := CheckUserExists(id);
      if check.Failure? {
        return Fail(check.error);
      }
      r := Ok(users[id]);
      users := users - {id};
    }

    /** `addFriend(userId, friendId)`. */
    method AddFriend(userId: int, friendId: int) returns (r: Outcome<Error>)
      requires Valid()
      modifies this`friends
      ensures Valid()
      ensures r == CheckUsersExist(userId, friendId)
      ensures r.Pass? ==> friends == AddFriendNext(old(friends), userId, friendId)
      ensures r.Failure? ==> friends == old(friends)
    {
      r := CheckUsersExist(userId, friendId);
      if r.Failure? {
        return;
      }
      ghost var before := friends;
      if userId !in friends {
        friends := friends[userId := map[]];
      }
      if friendId !in friends {
        friends := friends[friendId := map[]];
      }
      if userId in friends[friendId] {
        friends := friends[userId := friends[userId][friendId := APPROVED]];
        friends := friends[friendId := friends[friendId][userId := APPROVED]];
      }
      if friendId !in friends[userId] {
        friends := friends[userId := friends[userId][friendId := UNAPPROVED]];
      }
      AddFriendKeepsSymmetric(before, userId, friendId);
    }

    /** `deleteFriend(userId, friendId)`: removes both directed entries. */
    method DeleteFriend(userId: int, friendId: int) returns (r: Outcome<Error>)
      requires Valid()
      modifies this`friends
      ensures Valid()
      ensures r == CheckUsersExist(userId, friendId)
      ensures r.Pass? ==> friends == DeleteFriendNext(old(friends), userId, friendId)
      ensures r.Failure? ==> friends == old(friends)
    {
      r := CheckUsersExist(userId, friendId);
      if r.Failure? {
        return;
      }
      ghost var before := friends;
      if userId in friends {
        friends := friends[userId := friends[userId] - {friendId}];
      }
      if friendId in friends {
        friends := friends[friendId := friends[friendId] - {userId}];
      }
      DeleteFriendKeepsSymmetric(before, userId, friendId);
    }

    /** `getFriends(userId)`: the approved entries of the user's map, each
      resolved through `getById`. */
    function GetFriends(userId: int): (r: Result<seq<User>, Error>)
      reads this`users, this`friends
      ensures userId !in users ==> r == Fail(NotFound(UserEntity, userId))
      ensures userId in users && ApprovedIds(friends, userId) <= users.Keys ==>
        r.Ok? && |r.value| == |ApprovedIds(friends, userId)|
        && forall f :: f in ApprovedIds(friends, userId) ==> users[f] in r.value
    {
      if userId !in users then Fail(NotFound(UserEntity, userId))
      else Resolve(users, ApprovedIds(friends, userId))
    }

    /** `getCommonFriends(userId, otherId)`: the ids approved in both maps,
      each resolved through `getById`. */
    function GetCommonFriends(userId: int, otherId: int): (r: Result<seq<User>, Error>)
      reads this`users, this`friends
      ensures CheckUsersExist(userId, otherId).Failure? ==> r == Fail(CheckUsersExist(userId, otherId).error)
      ensures var common := ApprovedIds(friends, userId) * ApprovedIds(friends, otherId);
        CheckUsersExist(userId, otherId).Pass? && common <= users.Keys ==>
          r.Ok? && |r.value| == |common| && forall f :: f in common ==> users[f] in r.value
    {
      var check := CheckUsersExist(userId, otherId);
      if check.Failure? then Fail(check.error)
      else Resolve(users, ApprovedIds(friends, userId) * ApprovedIds(friends, otherId))
    }

    /** In every valid state, `a` is among `b`'s friends exactly when `b` is
      among `a`'s. */
    lemma FriendshipIsMutual(a: int, b: int)
      requires Valid()
      ensures a in ApprovedIds(friends, b) <==> b in ApprovedIds(friends, a)
    {
      FriendsSymmetric(friends, a, b);
    }
  }
}
