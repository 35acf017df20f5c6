/** tweet.controller.js: posting, listing a user's tweets, and the owner-only
    edit and delete. */
module Tweets {
  import opened Wrappers
  import opened Collections
  import opened Text
  import opened EntityStore
  import opened Edges
  import opened Likes

  /** createTweet: 400 for empty content; otherwise one tweet by the viewer is
      stored. */
  method CreateTweet(st: Store, content: string, viewer: Id, now: int) returns (r: Result<Tweet>)
    requires st.Valid()
    modifies st
    ensures st.Valid()
    ensures r.Err? <==> Missing(content)
    ensures r.Err? ==> r.status == 400 && st.Snapshot() == old(st.Snapshot())
    ensures r.Ok? ==>
      && r.value == Tweet(ObjectId(old(st.nextId)), content, viewer, now)
      && st.Snapshot() == old(st.Snapshot()).(tweets := old(st.tweets) + [r.value], nextId := old(st.nextId) + 1)
  {
    if Missing(content) {
      return Err(400);
    }
    var tweet := Tweet(ObjectId(st.nextId), content, viewer, now);
    WellFormedGrow(st.Snapshot());
    KeyedInsert(st.tweets, TweetId, st.nextId, tweet);
    st.tweets := st.tweets + [tweet];
    st.nextId := st.nextId + 1;
    r := Ok(tweet);
  }

  /** A row of a user's tweet list: the tweet's id and content, its author
      (`$first` of the author lookup), its like count and whether the viewer
      likes it. */
  datatype TweetRow = TweetRow(id: Id, content: string, ownerDetails: Option<User>, likesCount: nat, isLiked: bool)

  function TweetRowOf(db: Db, viewer: Id): Tweet -> TweetRow
  {
    (t: Tweet) => TweetRow(t.id, t.content, First(Filter(db.users, HasId(UserId, t.owner))),
                           LikesCount(db.likes, OnTweet(t.id)), IsLiked(db.likes, OnTweet(t.id), viewer))
  }

  /** What a tweet row says: the tweet's own id and content, the author when
      stored, the number of likes on the tweet, and whether the viewer's like
      on it exists. */
  lemma TweetRowFacts(db: Db, viewer: Id, t: Tweet)
    ensures var row := TweetRowOf(db, viewer)(t);
      && row.id == t.id && row.content == t.content
      && (row.ownerDetails.Some? <==> exists u :: u in db.users && u.id == t.owner)
      && (row.ownerDetails.Some? ==> row.ownerDetails.value in db.users && row.ownerDetails.value.id == t.owner)
      && row.likesCount == LikesCount(db.likes, OnTweet(t.id))
      && (row.isLiked <==> HasEdge(db.likes, LikeEdge, (viewer, OnTweet(t.id))))
  {
    var owners := Filter(db.users, HasId(UserId, t.owner));
    if owners != [] {
      assert owners[0] in owners;
      HasIdMeans(UserId, t.owner, owners[0]);
    }
    forall u | u in db.users && u.id == t.owner ensures u in owners {
      HasIdMeans(UserId, t.owner, u);
    }
    IsLikedIffEdge(db.likes, OnTweet(t.id), viewer);
  }

  function TweetCreatedAt(t: Tweet): int
  {
    t.createdAt
  }

  function PostedBy(userId: Id): Tweet -> bool
  {
    (t: Tweet) => t.owner == userId
  }

  /** The user's tweets, newest first: the order the rows come in. */
  function UserTweetsOrdered(db: Db, userId: Id): (ts: seq<Tweet>)
    ensures forall t :: t in ts <==> t in db.tweets && t.owner == userId
    ensures |ts| == |Filter(db.tweets, PostedBy(userId))|
    ensures SortedBy(ts, TweetCreatedAt, false)
  {
    var owned := Filter(db.tweets, PostedBy(userId));
    var ts := SortBy(owned, TweetCreatedAt, false);
    SameElements(ts, owned);
    assert |multiset(ts)| == |multiset(owned)|;
    ts
  }

  /** getUserTweets: 400 for a malformed user id; otherwise one row per tweet
      of the user, newest first. */
  function UserTweets(db: Db, userId: Id, viewer: Id): (r: Result<seq<TweetRow>>)
    ensures r.Err? <==> !ValidId(userId)
    ensures r.Err? ==> r.status == 400
    ensures r.Ok? ==>
      && |r.value| == |UserTweetsOrdered(db, userId)|
      && forall i :: 0 <= i < |r.value| ==> r.value[i] == TweetRowOf(db, viewer)(UserTweetsOrdered(db, userId)[i])
  {
    if !ValidId(userId) then Err(400)
    else Ok(Project(UserTweetsOrdered(db, userId), TweetRowOf(db, viewer)))
  }

  /** A new tweet shows up in its author's list. */
  lemma CreatedTweetListed(db: Db, t: Tweet, viewer: Id)
    requires ValidId(t.owner)
    ensures var after := db.(tweets := db.tweets + [t], nextId := db.nextId + 1);
      && UserTweets(after, t.owner, viewer).Ok?
      && TweetRowOf(after, viewer)(t) in UserTweets(after, t.owner, viewer).value
      && |UserTweets(after, t.owner, viewer).value| == |UserTweets(db, t.owner, viewer).value| + 1
  {
    var after := db.(tweets := db.tweets + [t], nextId := db.nextId + 1);
    var ts := UserTweetsOrdered(after, t.owner);
    assert t in after.tweets;
    var i :| 0 <= i < |ts| && ts[i] == t;
    assert UserTweets(after, t.owner, viewer).value[i] == TweetRowOf(after, viewer)(t);
    FilterAppend(db.tweets, [t], PostedBy(t.owner));
  }

  function SetTweetContent(content: string): Tweet -> Tweet
  {
    (t: Tweet) => t.(content := content)
  }

  /** updateTweet: 400 for empty content, a malformed id or an id no tweet
      has; 404 for a viewer who is not the author; otherwise only that tweet's
      content changes. */
  method UpdateTweet(st: Store, tweetId: Id, content: string, viewer: Id) returns (r: Result<Tweet>)
    requires st.Valid()
    modifies st
    ensures st.Valid()
    ensures r.Err? <==>
      || Missing(content) || !ValidId(tweetId)
      || FindById(old(st.tweets), TweetId, tweetId).None?
      || !IsOwner(FindById(old(st.tweets), TweetId, tweetId).value.owner, viewer)
    ensures (Missing(content) || !ValidId(tweetId) || FindById(old(st.tweets), TweetId, tweetId).None?) ==> r == Err(400)
    ensures (!Missing(content) && ValidId(tweetId) && FindById(old(st.tweets), TweetId, tweetId).Some?
             && !IsOwner(FindById(old(st.tweets), TweetId, tweetId).value.owner, viewer)) ==> r == Err(404)
    ensures r.Err? ==> st.Snapshot() == old(st.Snapshot())
    ensures r.Ok? ==>
      && r.value == FindById(old(st.tweets), TweetId, tweetId).value.(content := content)
      && st.Snapshot() == old(st.Snapshot()).(
           tweets := Replace(old(st.tweets), HasId(TweetId, tweetId), SetTweetContent(content)))
  {
    if Missing(content) {
      return Err(400);
    }
    if !ValidId(tweetId) {
      return Err(400);
    }
    var found := FindById(st.tweets, TweetId, tweetId);
    if found.None? {
      return Err(400);
    }
    if !IsOwner(found.value.owner, viewer) {
      return Err(404);
    }
    KeyedReplace(st.tweets, TweetId, st.nextId, HasId(TweetId, tweetId), SetTweetContent(content));
    st.tweets := Replace(st.tweets, HasId(TweetId, tweetId), SetTweetContent(content));
    r := Ok(found.value.(content := content));
  }

  /** After an edit the id finds the tweet with only its content changed, and
      every other id finds what it found before. */
  lemma UpdateTweetEffect(tweets: seq<Tweet>, bound: nat, tweetId: Id, content: string)
    requires Keyed(tweets, TweetId, bound)
    requires FindById(tweets, TweetId, tweetId).Some?
    ensures var after := Replace(tweets, HasId(TweetId, tweetId), SetTweetContent(content));
      var t := FindById(tweets, TweetId, tweetId).value;
      && FindById(after, TweetId, tweetId) == Some(Tweet(t.id, content, t.owner, t.createdAt))
      && (forall other :: other != tweetId ==> FindById(after, TweetId, other) == FindById(tweets, TweetId, other))
      && Keyed(after, TweetId, bound)
  {
    UpdateByIdEffect(tweets, TweetId, bound, tweetId, SetTweetContent(content));
  }

  /** deleteTweet: 400 for a malformed id or an id no tweet has, 404 for a
      viewer who is not the author; otherwise exactly that tweet is removed and
      its id answered. */
  method DeleteTweet(st: Store, tweetId: Id, viewer: Id) returns (r: Result<Id>)
    requires st.Valid()
    modifies st
    ensures st.Valid()
    ensures r.Err? <==>
      || !ValidId(tweetId)
      || FindById(old(st.tweets), TweetId, tweetId).None?
      || !IsOwner(FindById(old(st.tweets), TweetId, tweetId).value.owner, viewer)
    ensures (!ValidId(tweetId) || FindById(old(st.tweets), TweetId, tweetId).None?) ==> r == Err(400)
    ensures (ValidId(tweetId) && FindById(old(st.tweets), TweetId, tweetId).Some?
             && !IsOwner(FindById(old(st.tweets), TweetId, tweetId).value.owner, viewer)) ==> r == Err(404)
    ensures r.Err? ==> st.Snapshot() == old(st.Snapshot())
    ensures r.Ok? ==>
      && r.value == tweetId
      && st.Snapshot() == old(st.Snapshot()).(tweets := DeleteById(old(st.tweets), TweetId, tweetId))
  {
    if !ValidId(tweetId) {
      return Err(400);
    }
    var found := FindById(st.tweets, TweetId, tweetId);
    if found.None? {
      return Err(400);
    }
    if !IsOwner(found.value.owner, viewer) {
      return Err(404);
    }
    KeyedFilter(st.tweets, TweetId, st.nextId, OtherId(TweetId, tweetId));
    st.tweets := DeleteById(st.tweets, TweetId, tweetId);
    r := Ok(tweetId);
  }

  /** After the delete the id finds nothing, every other tweet is still found,
      and the author's list loses exactly that tweet. */
  lemma DeleteTweetEffect(db: Db, tweetId: Id, viewer: Id)
    requires WellFormed(db)
    requires FindById(db.tweets, TweetId, tweetId).Some?
    ensures var t := FindById(db.tweets, TweetId, tweetId).value;
      var after := db.(tweets := DeleteById(db.tweets, TweetId, tweetId));
      && FindById(after.tweets, TweetId, tweetId).None?
      && (forall other :: other != tweetId ==> FindById(after.tweets, TweetId, other) == FindById(db.tweets, TweetId, other))
      && (forall x :: x in UserTweetsOrdered(after, t.owner) <==> x in UserTweetsOrdered(db, t.owner) && x != t)
  {
    DeleteByIdEffect(db.tweets, TweetId, db.nextId, tweetId);
    var t := FindById(db.tweets, TweetId, tweetId).value;
    forall x | x in db.tweets && x.id == tweetId ensures x == t {
      SameKeySameElement(db.tweets, TweetId, x, t);
    }
  }
}
