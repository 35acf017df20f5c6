/** dashboard.controller.js: the channel statistics of the signed-in user,
    computed by two `$group` aggregations and read back with `|| 0`
    defaults. Nothing in the store changes. */
module Dashboard {
  import opened Wrappers
  import opened Collections
  import opened EntityStore
  import opened Likes
  import opened Subscriptions

  /** The response: subscribers of the channel, likes on its videos, views of
      its videos and the number of its videos. */
  datatype ChannelStats = ChannelStats(totalSubscribers: nat, totalLikes: nat, totalViews: nat, totalVideo: nat)

  /** The single document the video `$group` yields. */
  datatype VideoTotals = VideoTotals(totalLikes: nat, totalViews: nat, totalVideo: nat)

  /** The likes on a video (`$size` of the `$lookup` into the likes). */
  function VideoLikes(likes: seq<Like>): Video -> nat
  {
    (v: Video) => LikesCount(likes, OnVideo(v.id))
  }

  function Views(v: Video): nat
  {
    v.views
  }

  /** `$match` on the channel then `$group` with `$sum: 1`: no document at all
      when nothing matched. */
  function SubscriberGroup(subs: seq<Subscription>, channel: Id): (g: Option<nat>)
    ensures g.None? <==> forall s :: s in subs ==> s.channel != channel
    ensures g.Some? ==> g.value == SubscriberCount(subs, channel) && g.value > 0
  {
    var matched := Filter(subs, ToChannel(channel));
    if matched == [] then None
    else
      assert matched[0] in matched;
      Some(|matched|)
  }

  /** `$match` on the owner, per-video likes and views, then one `$group`:
      no document when the channel has no video. */
  function VideoGroup(db: Db, owner: Id): (g: Option<VideoTotals>)
    ensures g.None? <==> forall v :: v in db.videos ==> v.owner != owner
    ensures g.Some? ==> g.value.totalVideo == |Filter(db.videos, OwnedBy(owner))| > 0
  {
    var owned := Filter(db.videos, OwnedBy(owner));
    if owned == [] then None
    else
      assert owned[0] in owned;
      Some(VideoTotals(SumOf(owned, VideoLikes(db.likes)), SumOf(owned, Views), |owned|))
  }

  /** getChannelStats: 404 without a signed-in user; otherwise the four totals,
      each 0 when its aggregation yields no document. */
  function ChannelStatsOf(db: Db, viewer: Option<Id>): (r: Result<ChannelStats>)
    ensures r.Err? <==> viewer.None?
    ensures r.Err? ==> r.status == 404
    ensures r.Ok? ==>
      var owned := Filter(db.videos, OwnedBy(viewer.value));
      && r.value.totalSubscribers == SubscriberCount(db.subscriptions, viewer.value)
      && r.value.totalVideo == |owned|
      && r.value.totalViews == SumOf(owned, Views)
      && r.value.totalLikes == SumOf(owned, VideoLikes(db.likes))
      && (r.value.totalVideo == 0 <==> forall v :: v in db.videos ==> v.owner != viewer.value)
      && (r.value.totalSubscribers == 0 <==> forall s :: s in db.subscriptions ==> s.channel != viewer.value)
  {
    match viewer
    case None => Err(404)
    case Some(userId) =>
      var subscribers := SubscriberGroup(db.subscriptions, userId);
      var videos := VideoGroup(db, userId);
      // `|| 0` on each field: a missing group document reads as all zeros.
      var totals := videos.GetOr(VideoTotals(0, 0, 0));
      Ok(ChannelStats(
        subscribers.GetOr(0),
        totals.totalLikes,
        totals.totalViews,
        totals.totalVideo))
  }

  /** The likes on any video of `vs`. */
  ghost function OnAnyOf(vs: seq<Video>): Like -> bool
  {
    (l: Like) => exists v :: v in vs && l.target == OnVideo(v.id)
  }

  /** Adding up per-video like counts over videos with distinct ids counts each
      like on one of those videos once. */
  lemma {:induction false} SumOfLikesCountsLikes(likes: seq<Like>, vs: seq<Video>)
    requires DistinctBy(vs, VideoId)
    ensures SumOf(vs, VideoLikes(likes)) == Count(likes, OnAnyOf(vs))
  {
    if vs == [] {
      assert Count(likes, OnAnyOf(vs)) == 0;
    } else {
      var v := vs[0];
      var rest := vs[1..];
      DistinctByTail(vs, VideoId);
      SumOfLikesCountsLikes(likes, rest);
      forall k | 0 <= k < |rest| ensures rest[k].id != v.id {
        assert vs[k + 1] == rest[k];
        assert VideoId(vs[0]) != VideoId(vs[k + 1]);
      }
      forall l | l in likes
        ensures (OnAnyOf(vs)(l) <==> OnTarget(OnVideo(v.id))(l) || OnAnyOf(rest)(l))
        ensures !(OnTarget(OnVideo(v.id))(l) && OnAnyOf(rest)(l))
      {
        assert forall w :: w in vs <==> w == v || w in rest;
      }
      CountSplit(likes, OnAnyOf(vs), OnTarget(OnVideo(v.id)), OnAnyOf(rest));
      assert LikesCount(likes, OnVideo(v.id)) == Count(likes, OnTarget(OnVideo(v.id)));
    }
  }

  /** The likes on the channel's videos. */
  ghost function LikesOnChannel(videos: seq<Video>, owner: Id): Like -> bool
  {
    (l: Like) => exists v :: v in videos && v.owner == owner && l.target == OnVideo(v.id)
  }

  /** In a well-formed store `totalLikes` is the number of likes on videos the
      channel owns. */
  lemma TotalLikesCountsChannelLikes(db: Db, userId: Id)
    requires WellFormed(db)
    ensures ChannelStatsOf(db, Some(userId)).value.totalLikes == Count(db.likes, LikesOnChannel(db.videos, userId))
  {
    var owned := Filter(db.videos, OwnedBy(userId));
    DistinctByFilter(db.videos, VideoId, OwnedBy(userId));
    SumOfLikesCountsLikes(db.likes, owned);
    CountSame(db.likes, OnAnyOf(owned), LikesOnChannel(db.videos, userId));
  }
}
