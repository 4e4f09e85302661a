/** `FeedDbStorage`: the append-only `user_feeds` log. Rows get their
    `event_id` from the table's identity column, modelled as the position
    in the log counted from one. */
module FeedDbStorage {
  import opened Model
  import opened Schema

  /** The events of one user, in log order. */
  function UserFeed(feed: seq<FeedEvent>, userId: int): (r: seq<FeedEvent>)
    ensures |r| <= |feed|
    ensures forall e :: e in r <==> e in feed && e.userId == userId
  {
    if feed == [] then []
    else if feed[0].userId == userId then [feed[0]] + UserFeed(feed[1..], userId)
    else UserFeed(feed[1..], userId)
  }

  /** Event ids are 1, 2, 3, … in log order. */
  predicate IdsSequential(feed: seq<FeedEvent>) {
    forall i :: 0 <= i < |feed| ==> feed[i].eventId == i + 1
  }

  /** `getUserFeed(userId)`. */
  function GetUserFeed(db: Database, userId: int): (r: seq<FeedEvent>)
    reads db`feed
    ensures forall e :: e in r <==> e in db.feed && e.userId == userId
  {
    UserFeed(db.feed, userId)
  }

  /** `addEvent(event)`: appends one row carrying the event's user, type,
      operation, entity and timestamp; the event's own id is ignored. */
  method AddEvent(db: Database, event: FeedEvent) returns (stored: FeedEvent)
    modifies db`feed
    ensures stored == event.(eventId := |old(db.feed)| + 1)
    ensures db.feed == old(db.feed) + [stored]
    ensures old(IdsSequential(db.feed)) ==> IdsSequential(db.feed)
  {
    stored := event.(eventId := |db.feed| + 1);
    db.feed := db.feed + [stored];
  }

  /** Appending an event adds it at the end of its user's feed. */
  lemma {:induction false} UserFeedAppend(feed: seq<FeedEvent>, e: FeedEvent, userId: int)
    ensures UserFeed(feed + [e], userId) == UserFeed(feed, userId) + (if e.userId == userId then [e] else [])
    decreases |feed|
  {
    if feed == [] {
      assert [e][1..] == [];
    } else {
      assert (feed + [e])[1..] == feed[1..] + [e];
      UserFeedAppend(feed[1..], e, userId);
    }
  }

  /** An event of one user leaves every other user's feed as it was. */
  lemma AddEventOtherFeeds(feed: seq<FeedEvent>, e: FeedEvent, userId: int)
    requires e.userId != userId
    ensures UserFeed(feed + [e], userId) == UserFeed(feed, userId)
  {
    UserFeedAppend(feed, e, userId);
  }
}
