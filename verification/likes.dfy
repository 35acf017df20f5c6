/** like.controller.js: the like toggle on videos, comments and tweets, the
    `likesCount`/`isLiked` figures every view derives from the likes, and the
    viewer's liked-video list. */
module Likes {
  import opened Wrappers
  import opened Collections
  import opened EntityStore
  import opened Edges

  /** The id a like target refers to. */
  function TargetId(t: Target): Id
  {
    match t
    case OnVideo(v) => v
    case OnComment(c) => c
    case OnTweet(w) => w
  }

  /** Selects the likes on `t` (a `$lookup` from the target into the likes). */
  function OnTarget(t: Target): Like -> bool
  {
    (l: Like) => l.target == t
  }

  function LikesOn(likes: seq<Like>, t: Target): seq<Like>
  {
    Filter(likes, OnTarget(t))
  }

  function Liker(l: Like): Id
  {
    l.likedBy
  }

  /** `likesCount`: `$size` of the likes on the target. */
  function LikesCount(likes: seq<Like>, t: Target): (n: nat)
    ensures n <= |likes|
    ensures n == 0 <==> forall l :: l in likes ==> l.target != t
  {
    assert |LikesOn(likes, t)| == Count(likes, OnTarget(t));
    |LikesOn(likes, t)|
  }

  /** `isLiked`: `$in: [viewer, "$likes.likedBy"]`. */
  function IsLiked(likes: seq<Like>, t: Target, viewer: Id): bool
  {
    viewer in Project(LikesOn(likes, t), Liker)
  }

  /** The viewer-relative flag of every view is exactly the toggle's state. */
  lemma IsLikedIffEdge(likes: seq<Like>, t: Target, viewer: Id)
    ensures IsLiked(likes, t, viewer) <==> HasEdge(likes, LikeEdge, (viewer, t))
    ensures IsLiked(likes, t, viewer) ==> LikesCount(likes, t) >= 1
  {
    var on := LikesOn(likes, t);
    if IsLiked(likes, t, viewer) {
      var i :| 0 <= i < |on| && Project(on, Liker)[i] == viewer;
      assert on[i] in on;
    }
    if HasEdge(likes, LikeEdge, (viewer, t)) {
      var e :| e in likes && LikeEdge(e) == (viewer, t);
      assert e in on;
      var i :| 0 <= i < |on| && on[i] == e;
      assert Project(on, Liker)[i] == viewer;
    }
  }

  /** The like toggle's step: the likes afterwards and the reported `isLiked`.
      A created like gets `_id` `id` and creation time `now`. */
  function ToggleLikes(likes: seq<Like>, viewer: Id, t: Target, id: Id, now: int): (seq<Like>, bool)
  {
    Toggle(likes, LikeEdge, LikeId, (viewer, t), Like(id, viewer, t, now))
  }

  /** What a toggle does to the figures the views show: the reported flag is the
      viewer's new `isLiked`, the target's `likesCount` moves by one in that
      direction, and no other target's count and no other viewer's flag moves. */
  lemma ToggleLikeViews(likes: seq<Like>, viewer: Id, t: Target, id: Id, now: int)
    requires EdgeSet(likes, LikeEdge, LikeId)
    requires FreshEdge(likes, LikeId, Like(id, viewer, t, now))
    ensures var r := ToggleLikes(likes, viewer, t, id, now);
      && IsLiked(r.0, t, viewer) == r.1
      && LikesCount(r.0, t) == (if r.1 then LikesCount(likes, t) + 1 else LikesCount(likes, t) - 1)
      && (forall u :: u != t ==> LikesCount(r.0, u) == LikesCount(likes, u))
      && (forall w :: w != viewer ==> IsLiked(r.0, t, w) == IsLiked(likes, t, w))
  {
    var created := Like(id, viewer, t, now);
    var r := ToggleLikes(likes, viewer, t, id, now);
    if HasEdge(likes, LikeEdge, (viewer, t)) {
      var e := FindEdge(likes, LikeEdge, (viewer, t)).value;
      ToggleOff(likes, LikeEdge, LikeId, (viewer, t), created);
      forall u ensures LikesCount(r.0, u) == LikesCount(likes, u) - (if e.target == u then 1 else 0) {
        CountDeleteOne(likes, LikeId, e, OnTarget(u));
      }
      forall w | w != viewer ensures IsLiked(r.0, t, w) == IsLiked(likes, t, w) {
        IsLikedIffEdge(r.0, t, w);
        IsLikedIffEdge(likes, t, w);
        if HasEdge(likes, LikeEdge, (w, t)) {
          var x :| x in likes && LikeEdge(x) == (w, t);
          assert x in r.0;
        }
      }
    } else {
      ToggleOn(likes, LikeEdge, LikeId, (viewer, t), created);
      assert created in r.0;
      forall u ensures LikesCount(r.0, u) == LikesCount(likes, u) + (if t == u then 1 else 0) {
        CountAppendOne(likes, created, OnTarget(u));
      }
      forall w | w != viewer ensures IsLiked(r.0, t, w) == IsLiked(likes, t, w) {
        IsLikedIffEdge(r.0, t, w);
        IsLikedIffEdge(likes, t, w);
      }
    }
    IsLikedIffEdge(r.0, t, viewer);
  }

  /** As written, the id check of every like toggle is inverted: any target a
      well-formed store holds is refused with 404, while the corrected check
      lets it through. */
  lemma InvertedCheckRefusesStoredTargets(db: Db, t: Target)
    requires WellFormed(db)
    requires (t.OnVideo? && exists v :: v in db.videos && v.id == t.video)
          || (t.OnComment? && exists c :: c in db.comments && c.id == t.comment)
          || (t.OnTweet? && exists w :: w in db.tweets && w.id == t.tweet)
    ensures IdCheckInverted(TargetId(t), 404) == Some(404)
    ensures IdCheck(TargetId(t), 404) == None
  {
  }

  /** toggleVideoLike, toggleCommentLike and toggleTweetLike share this body:
      check the id, then delete the viewer's like on `t` if there is one and
      create it otherwise, answering the new `isLiked`. */
  method ToggleLike(st: Store, t: Target, viewer: Id, now: int) returns (r: Result<bool>)
    requires st.Valid()
    modifies st
    ensures st.Valid()
    ensures !ValidId(TargetId(t)) ==> r == Err(404) && st.Snapshot() == old(st.Snapshot())
    ensures ValidId(TargetId(t)) ==>
      var step := ToggleLikes(old(st.likes), viewer, t, ObjectId(old(st.nextId)), now);
      && r == Ok(step.1)
      && st.Snapshot() == old(st.Snapshot()).(
           likes := step.0,
           nextId := if step.1 then old(st.nextId) + 1 else old(st.nextId))
  {
    var check := IdCheck(TargetId(t), 404);
    if check.Some? {
      return Err(check.value);
    }
    var created := Like(ObjectId(st.nextId), viewer, t, now);
    match FindEdge(st.likes, LikeEdge, (viewer, t))
    case Some(e) =>
      ToggleOff(st.likes, LikeEdge, LikeId, (viewer, t), created);
      KeyedFilter(st.likes, LikeId, st.nextId, OtherId(LikeId, e.id));
      st.likes := DeleteById(st.likes, LikeId, e.id);
      r := Ok(false);
    case None =>
      ToggleOn(st.likes, LikeEdge, LikeId, (viewer, t), created);
      WellFormedGrow(st.Snapshot());
      KeyedInsert(st.likes, LikeId, st.nextId, created);
      st.likes := st.likes + [created];
      st.nextId := st.nextId + 1;
      r := Ok(true);
  }

  method ToggleVideoLike(st: Store, videoId: Id, viewer: Id, now: int) returns (r: Result<bool>)
    requires st.Valid()
    modifies st
    ensures st.Valid()
    ensures !ValidId(videoId) ==> r == Err(404) && st.Snapshot() == old(st.Snapshot())
    ensures ValidId(videoId) ==>
      var step := ToggleLikes(old(st.likes), viewer, OnVideo(videoId), ObjectId(old(st.nextId)), now);
      && r == Ok(step.1)
      && st.Snapshot() == old(st.Snapshot()).(
           likes := step.0,
           nextId := if step.1 then old(st.nextId) + 1 else old(st.nextId))
  {
    r := ToggleLike(st, OnVideo(videoId), viewer, now);
  }

  method ToggleCommentLike(st: Store, commentId: Id, viewer: Id, now: int) returns (r: Result<bool>)
    requires st.Valid()
    modifies st
    ensures st.Valid()
    ensures !ValidId(commentId) ==> r == Err(404) && st.Snapshot() == old(st.Snapshot())
    ensures ValidId(commentId) ==>
      var step := ToggleLikes(old(st.likes), viewer, OnComment(commentId), ObjectId(old(st.nextId)), now);
      && r == Ok(step.1)
      && st.Snapshot() == old(st.Snapshot()).(
           likes := step.0,
           nextId := if step.1 then old(st.nextId) + 1 else old(st.nextId))
  {
    r := ToggleLike(st, OnComment(commentId), viewer, now);
  }

  method ToggleTweetLike(st: Store, tweetId: Id, viewer: Id, now: int) returns (r: Result<bool>)
    requires st.Valid()
    modifies st
    ensures st.Valid()
    ensures !ValidId(tweetId) ==> r == Err(404) && st.Snapshot() == old(st.Snapshot())
    ensures ValidId(tweetId) ==>
      var step := ToggleLikes(old(st.likes), viewer, OnTweet(tweetId), ObjectId(old(st.nextId)), now);
      && r == Ok(step.1)
      && st.Snapshot() == old(st.Snapshot()).(
           likes := step.0,
           nextId := if step.1 then old(st.nextId) + 1 else old(st.nextId))
  {
    r := ToggleLike(st, OnTweet(tweetId), viewer, now);
  }

  /** A row of the liked-video list: the like, its video and the video's owner. */
  datatype LikedVideoRow = LikedVideoRow(like: Like, video: Video, ownerDetails: User)

  /** `row` joins the like `l` with its video and that video's owner. */
  predicate JoinsLike(db: Db, l: Like, row: LikedVideoRow)
  {
    && row.like == l
    && l.target == OnVideo(row.video.id)
    && row.video in db.videos
    && row.ownerDetails in db.users
    && row.ownerDetails.id == row.video.owner
  }

  /** The `$unwind` of a video's owner lookup: one row per stored owner. */
  function WithOwner(l: Like, v: Video): User -> seq<LikedVideoRow>
  {
    (u: User) => [LikedVideoRow(l, v, u)]
  }

  /** The owner `$lookup` of the like's video. */
  function JoinOwner(db: Db, l: Like): Video -> seq<LikedVideoRow>
  {
    (v: Video) => FlatMap(Filter(db.users, HasId(UserId, v.owner)), WithOwner(l, v))
  }

  /** The rows one like produces: its video joined with that video's owner;
      none when the like is not on a video, the video is gone or its owner is.
      With unique `_id`s among videos and users, that is at most one row. */
  function LikedVideoRowsOf(db: Db, l: Like): (rows: seq<LikedVideoRow>)
    ensures forall row :: row in rows <==> JoinsLike(db, l, row)
    ensures DistinctBy(db.videos, VideoId) && DistinctBy(db.users, UserId) ==> |rows| <= 1
  {
    match l.target
    case OnVideo(vid) =>
      var found := Filter(db.videos, HasId(VideoId, vid));
      var rows := FlatMap(found, JoinOwner(db, l));
      assert forall row :: row in rows <==> JoinsLike(db, l, row) by {
        forall row: LikedVideoRow ensures row in rows <==> JoinsLike(db, l, row) {
          if row in rows {
            var v :| v in found && row in JoinOwner(db, l)(v);
            var u :| u in Filter(db.users, HasId(UserId, v.owner)) && row in WithOwner(l, v)(u);
            assert HasId(VideoId, vid)(v) && HasId(UserId, v.owner)(u);
            assert VideoId(v) == vid && UserId(u) == v.owner;
          }
          if JoinsLike(db, l, row) {
            assert UserId(row.ownerDetails) == row.video.owner;
            assert HasId(UserId, row.video.owner)(row.ownerDetails);
            assert row.ownerDetails in Filter(db.users, HasId(UserId, row.video.owner));
            assert row in WithOwner(l, row.video)(row.ownerDetails);
            assert row in JoinOwner(db, l)(row.video);
            assert VideoId(row.video) == vid;
            assert HasId(VideoId, vid)(row.video);
            assert row.video in found;
          }
        }
      }
      assert DistinctBy(db.videos, VideoId) && DistinctBy(db.users, UserId) ==> |rows| <= 1 by {
        if DistinctBy(db.videos, VideoId) && DistinctBy(db.users, UserId) {
          AtMostOneWithId(db.videos, VideoId, vid);
          forall v | v in found ensures |JoinOwner(db, l)(v)| <= 1 {
            AtMostOneWithId(db.users, UserId, v.owner);
            FlatMapAtMostOne(Filter(db.users, HasId(UserId, v.owner)), WithOwner(l, v));
          }
          FlatMapAtMostOne(found, JoinOwner(db, l));
        }
      }
      rows
    case _ => []
  }

  function LikeCreatedAt(row: LikedVideoRow): int
  {
    row.like.createdAt
  }

  /** Selects the likes a viewer gave. */
  function LikedBy(viewer: Id): Like -> bool
  {
    (l: Like) => l.likedBy == viewer
  }

  /** getLikedVideos: the viewer's likes joined with their videos and owners,
      newest like first. A row exists exactly for each like of the viewer's
      whose video and owner are both in the store, and in a well-formed store
      no row appears twice, so each such like gives exactly one row. */
  function LikedVideos(db: Db, viewer: Id): (rows: seq<LikedVideoRow>)
    ensures SortedBy(rows, LikeCreatedAt, false)
    ensures forall row :: row in rows <==>
      row.like in db.likes && row.like.likedBy == viewer && JoinsLike(db, row.like, row)
    ensures WellFormed(db) ==> NoDuplicates(rows)
  {
    var mine := Filter(db.likes, LikedBy(viewer));
    var join := (l: Like) => LikedVideoRowsOf(db, l);
    var joined := FlatMap(mine, join);
    var rows := SortBy(joined, LikeCreatedAt, false);
    SameElements(rows, joined);
    assert WellFormed(db) ==> NoDuplicates(rows) by {
      if WellFormed(db) {
        DistinctByNoDuplicates(db.likes, LikeId);
        NoDuplicatesFilter(db.likes, LikedBy(viewer));
        assert forall l, l', row :: l in mine && l' in mine && row in join(l) && row in join(l') ==> l == l';
        NoDuplicatesFlatMap(mine, join);
        NoDuplicatesPermutation(joined, rows);
      }
    }
    rows
  }
}
