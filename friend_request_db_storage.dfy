/** The `users_friends_requests` table: one row per directed request
    (user_id, friend_id) with a status stored as text. */
module FriendRequests {
  import opened Wrappers
  import opened Text
  import opened Schema

  /** `FriendRequestStatus.name()`. */
  function Name(s: Status): string {
    match s
    case UNAPPROVED => "UNAPPROVED"
    case APPROVED => "APPROVED"
  }

  /** `FriendRequestStatus.valueOf(name)`; `None` where it throws
      `IllegalArgumentException`. */
  function ValueOf(name: string): (r: Option<Status>)
    ensures r.Some? <==> name == "UNAPPROVED" || name == "APPROVED"
    ensures r.Some? ==> Name(r.value) == name
  {
    if name == "UNAPPROVED" then Some(UNAPPROVED)
    else if name == "APPROVED" then Some(APPROVED)
    else None
  }

  /** The text written to the status column: the lower-cased name. */
  function Encode(s: Status): string {
    ToLower(Name(s))
  }

  /** Reading the status column back: upper-case, then `valueOf`. */
  function Decode(text: string): Option<Status> {
    ValueOf(ToUpper(text))
  }

  /** Every status the storage writes reads back as itself. */
  lemma DecodeEncode(s: Status)
    ensures Decode(Encode(s)) == Some(s)
  {
    assert IsUpperAscii(Name(s));
    UpperOfLower(Name(s));
  }

  /** Distinct statuses are stored as distinct texts, so comparing the
      column with `Encode(APPROVED)` selects exactly the approved rows. */
  lemma EncodeInjective(s: Status, t: Status)
    ensures Encode(s) == Encode(t) <==> s == t
  {
    if s != t {
      DecodeEncode(s);
      DecodeEncode(t);
    }
  }

  /** `get(userId, friendId)`: the decoded status of the (userId, friendId)
      row, or `None` when there is no such row. */
  function Get(db: Database, userId: int, friendId: int): (r: Option<Status>)
    reads db`requests
    ensures r.Some? <==> Edge(userId, friendId) in db.requests
    ensures r.Some? ==> r.value == db.requests[Edge(userId, friendId)]
  {
    var e := Edge(userId, friendId);
    if e in db.requests then
      DecodeEncode(db.requests[e]);
      Decode(Encode(db.requests[e]))
    else None
  }

  /** `create(userId, friendId, status)`: writes the row under its key. A
      row already under that key is replaced, where the database's key
      would refuse the insert. On a table that keeps `OnePerPair`,
      `UserDbStorage` calls this only for an edge whose pair has no row. */
  method Create(db: Database, userId: int, friendId: int, status: Status)
    modifies db`requests
    ensures db.requests == old(db.requests)[Edge(userId, friendId) := status]
    ensures Get(db, userId, friendId) == Some(status)
  {
    db.requests := db.requests[Edge(userId, friendId) := status];
  }

  /** `update(userId, friendId, status)`: sets the status of an existing
      row; no row is added when there is none. */
  method Update(db: Database, userId: int, friendId: int, status: Status)
    modifies db`requests
    ensures Edge(userId, friendId) in old(db.requests) ==>
      db.requests == old(db.requests)[Edge(userId, friendId) := status]
    ensures Edge(userId, friendId) !in old(db.requests) ==> db.requests == old(db.requests)
  {
    var e := Edge(userId, friendId);
    if e in db.requests {
      db.requests := db.requests[e := status];
    }
  }

  /** `delete(userId, friendId)`: removes the (userId, friendId) row only;
      the reverse row (friendId, userId) stays. */
  method Delete(db: Database, userId: int, friendId: int)
    modifies db`requests
    ensures db.requests == old(db.requests) - {Edge(userId, friendId)}
    ensures Get(db, userId, friendId) == None
    ensures forall e :: e in old(db.requests) && e != Edge(userId, friendId) ==>
      e in db.requests && db.requests[e] == old(db.requests)[e]
  {
    db.requests := db.requests - {Edge(userId, friendId)};
  }
}
