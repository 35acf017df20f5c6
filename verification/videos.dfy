/** video.controller.js: the public feed, publishing, the detail page with its
    view counter, and the owner-only update, delete and publish toggle. */
module Videos {
  import opened Wrappers
  import opened Collections
  import opened Text
  import opened EntityStore
  import opened Edges
  import opened Likes
  import opened Subscriptions

  // ---------------------------------------------------------------------------
  // The feed (getAllVideo)

  /** A stage of the feed's aggregation pipeline. */
  datatype Stage =
    | Search(query: string)               // `$search` on title and description
    | MatchOwner(owner: Id)               // `$match: { owner }`
    | MatchPublished                      // `$match: { isPublished: true }`
    | SortOn(field: string, ascending: bool)

  /** The numeric value `$sort` compares for a field name. Only the numeric
      fields of a video are modelled; any other name compares every video as
      equal. */
  function FieldKey(field: string): Video -> int
  {
    (v: Video) =>
      if field == "createdAt" then v.createdAt
      else if field == "views" then v.views
      else if field == "duration" then v.duration
      else 0
  }

  /** The sort the feed applies: the requested field and direction when both
      `sortBy` and `sortType` are given (ascending only for "asy"), otherwise
      newest first. */
  function FeedSort(sortBy: string, sortType: string): (string, bool)
  {
    if !Missing(sortBy) && !Missing(sortType) then (sortBy, sortType == "asy")
    else ("createdAt", false)
  }

  /** The pipeline getAllVideo assembles, stage by stage. `userId` is `None`
      when the query string has none or gives it empty, the two cases
      `if(userId)` treats alike; a malformed one is refused with 400. */
  function FeedStages(query: string, sortBy: string, sortType: string, userId: Option<Id>): (r: Result<seq<Stage>>)
    ensures r.Err? <==> userId.Some? && !ValidId(userId.value)
    ensures r.Err? ==> r.status == 400
    ensures r.Ok? ==>
      && |r.value| >= 2
      && MatchPublished in r.value
      && (Search(query) in r.value <==> !Missing(query))
      && (userId.Some? <==> exists o :: MatchOwner(o) in r.value)
      && (userId.Some? ==> MatchOwner(userId.value) in r.value)
      && r.value[|r.value| - 1] == SortOn(FeedSort(sortBy, sortType).0, FeedSort(sortBy, sortType).1)
  {
    if userId.Some? && !ValidId(userId.value) then Err(400)
    else
      var search := if !Missing(query) then [Search(query)] else [];
      var owner := if userId.Some? then [MatchOwner(userId.value)] else [];
      var sort := FeedSort(sortBy, sortType);
      var stages := search + owner + [MatchPublished] + [SortOn(sort.0, sort.1)];
      assert MatchPublished == stages[|search| + |owner|];
      assert userId.Some? ==> MatchOwner(userId.value) == stages[|search|];
      Ok(stages)
  }

  /** getAllVideo's pipeline construction: push the optional search stage, the
      optional owner stage, the published filter and the sort, in that order. */
  method BuildFeedPipeline(query: string, sortBy: string, sortType: string, userId: Option<Id>)
    returns (r: Result<seq<Stage>>)
    ensures r == FeedStages(query, sortBy, sortType, userId)
  {
    ghost var search := if !Missing(query) then [Search(query)] else [];
    ghost var owner := if userId.Some? then [MatchOwner(userId.value)] else [];
    var pipeline: seq<Stage> := [];
    if !Missing(query) {
      pipeline := pipeline + [Search(query)];
    }
    assert pipeline == search;
    if userId.Some? {
      if !ValidId(userId.value) {
        return Err(400);
      }
      pipeline := pipeline + [MatchOwner(userId.value)];
    }
    assert pipeline == search + owner;
    pipeline := pipeline + [MatchPublished];
    if !Missing(sortBy) && !Missing(sortType) {
      pipeline := pipeline + [SortOn(sortBy, sortType == "asy")];
    } else {
      pipeline := pipeline + [SortOn("createdAt", false)];
    }
    assert pipeline == search + owner + [MatchPublished] + [SortOn(FeedSort(sortBy, sortType).0, FeedSort(sortBy, sortType).1)];
    return Ok(pipeline);
  }

  /** Whether a video passes a stage. `matches` stands for the external
      full-text index behind `$search`. */
  predicate Passes(st: Stage, v: Video, matches: (Video, string) -> bool)
  {
    match st
    case Search(q) => matches(v, q)
    case MatchOwner(o) => v.owner == o
    case MatchPublished => v.isPublished
    case SortOn(_, _) => true
  }

  function PassesStage(st: Stage, matches: (Video, string) -> bool): Video -> bool
  {
    (v: Video) => Passes(st, v, matches)
  }

  function ApplyStage(vs: seq<Video>, st: Stage, matches: (Video, string) -> bool): (r: seq<Video>)
    ensures forall v :: v in r <==> v in vs && Passes(st, v, matches)
    ensures st.SortOn? ==> SortedBy(r, FieldKey(st.field), st.ascending)
  {
    match st
    case SortOn(field, ascending) =>
      var sorted := SortBy(vs, FieldKey(field), ascending);
      SameElements(sorted, vs);
      sorted
    case _ => Filter(vs, PassesStage(st, matches))
  }

  /** Runs the stages in order. */
  function RunStages(vs: seq<Video>, stages: seq<Stage>, matches: (Video, string) -> bool): (r: seq<Video>)
    ensures forall v :: v in r <==> v in vs && forall st :: st in stages ==> Passes(st, v, matches)
    ensures stages != [] && stages[|stages| - 1].SortOn? ==>
      SortedBy(r, FieldKey(stages[|stages| - 1].field), stages[|stages| - 1].ascending)
    decreases |stages|
  {
    if stages == [] then vs
    else
      var r := RunStages(ApplyStage(vs, stages[0], matches), stages[1..], matches);
      assert forall st :: st in stages <==> st == stages[0] || st in stages[1..];
      assert |stages| > 1 ==> stages[|stages| - 1] == stages[1..][|stages[1..]| - 1];
      r
  }

  /** Every stage keeps distinct videos distinct: a `$match` drops some and a
      `$sort` reorders them. */
  lemma {:induction false} RunStagesKeepsDistinct(vs: seq<Video>, stages: seq<Stage>, matches: (Video, string) -> bool)
    requires NoDuplicates(vs)
    ensures NoDuplicates(RunStages(vs, stages, matches))
    decreases |stages|
  {
    if stages != [] {
      var next := ApplyStage(vs, stages[0], matches);
      assert NoDuplicates(next) by {
        if stages[0].SortOn? {
          NoDuplicatesPermutation(vs, next);
        } else {
          NoDuplicatesFilter(vs, PassesStage(stages[0], matches));
        }
      }
      RunStagesKeepsDistinct(next, stages[1..], matches);
    }
  }

  /** A feed row: the video and its owner. */
  datatype FeedRow = FeedRow(video: Video, ownerDetails: User)

  /** The owner `$lookup` and `$unwind` of one video: a row per stored owner,
      so at most one when user ids are unique. */
  function FeedRowsOf(users: seq<User>, v: Video): (rows: seq<FeedRow>)
    ensures forall row :: row in rows <==>
      row.video == v && row.ownerDetails in users && row.ownerDetails.id == v.owner
    ensures DistinctBy(users, UserId) ==> |rows| <= 1
  {
    var owners := Filter(users, HasId(UserId, v.owner));
    var rows := Project(owners, (u: User) => FeedRow(v, u));
    assert DistinctBy(users, UserId) ==> |rows| <= 1 by {
      if DistinctBy(users, UserId) {
        AtMostOneWithId(users, UserId, v.owner);
      }
    }
    assert forall row :: row in rows <==>
      row.video == v && row.ownerDetails in users && row.ownerDetails.id == v.owner by {
      forall row ensures row in rows <==>
        row.video == v && row.ownerDetails in users && row.ownerDetails.id == v.owner {
        if row in rows {
          var i :| 0 <= i < |rows| && rows[i] == row;
          assert owners[i] in owners;
          HasIdMeans(UserId, v.owner, owners[i]);
        }
        if row.video == v && row.ownerDetails in users && row.ownerDetails.id == v.owner {
          HasIdMeans(UserId, v.owner, row.ownerDetails);
          assert row.ownerDetails in owners;
          var i :| 0 <= i < |owners| && owners[i] == row.ownerDetails;
          assert rows[i] == row;
        }
      }
    }
    rows
  }

  function RowKey(field: string): FeedRow -> int
  {
    (row: FeedRow) => FieldKey(field)(row.video)
  }

  /** The feed: the videos the stages keep, in their order, each joined with
      its owner (`$lookup` then `$unwind`). */
  function Feed(db: Db, stages: seq<Stage>, matches: (Video, string) -> bool): seq<FeedRow>
  {
    FlatMap(RunStages(db.videos, stages, matches), (v: Video) => FeedRowsOf(db.users, v))
  }

  /** The stages of the feed pipeline, as a set. */
  lemma FeedStagesMembers(query: string, sortBy: string, sortType: string, userId: Option<Id>)
    requires FeedStages(query, sortBy, sortType, userId).Ok?
    ensures forall st :: st in FeedStages(query, sortBy, sortType, userId).value <==>
      || (st == Search(query) && !Missing(query))
      || (userId.Some? && st == MatchOwner(userId.value))
      || st == MatchPublished
      || st == SortOn(FeedSort(sortBy, sortType).0, FeedSort(sortBy, sortType).1)
  {
    var search := if !Missing(query) then [Search(query)] else [];
    var owner := if userId.Some? then [MatchOwner(userId.value)] else [];
    var sort := FeedSort(sortBy, sortType);
    assert FeedStages(query, sortBy, sortType, userId).value == search + owner + [MatchPublished] + [SortOn(sort.0, sort.1)];
  }

  /** The videos the feed pipeline keeps, before the owner join. */
  lemma FeedKeeps(vs: seq<Video>, query: string, sortBy: string, sortType: string, userId: Option<Id>,
                  matches: (Video, string) -> bool)
    requires FeedStages(query, sortBy, sortType, userId).Ok?
    ensures var kept := RunStages(vs, FeedStages(query, sortBy, sortType, userId).value, matches);
      && (forall v :: v in kept <==>
            && v in vs && v.isPublished
            && (userId.Some? ==> v.owner == userId.value)
            && (!Missing(query) ==> matches(v, query)))
      && SortedBy(kept, FieldKey(FeedSort(sortBy, sortType).0), FeedSort(sortBy, sortType).1)
  {
    var stages := FeedStages(query, sortBy, sortType, userId).value;
    FeedStagesMembers(query, sortBy, sortType, userId);
    forall v ensures (forall st :: st in stages ==> Passes(st, v, matches)) <==>
      && v.isPublished
      && (userId.Some? ==> v.owner == userId.value)
      && (!Missing(query) ==> matches(v, query))
    {
      assert MatchPublished in stages;
      if userId.Some? {
        assert MatchOwner(userId.value) in stages;
      }
      if !Missing(query) {
        assert Search(query) in stages;
      }
    }
  }

  /** What getAllVideo answers, page windowing aside: every row is a published
      stored video with its owner, owned by `userId` when one is given and
      matching the search when there is one, every such video appears, the
      rows are in the requested order, and in a well-formed store no row
      appears twice, so each such video gives exactly one row. */
  lemma FeedRules(db: Db, query: string, sortBy: string, sortType: string, userId: Option<Id>,
                  matches: (Video, string) -> bool)
    requires FeedStages(query, sortBy, sortType, userId).Ok?
    ensures var rows := Feed(db, FeedStages(query, sortBy, sortType, userId).value, matches);
      && (forall row :: row in rows <==>
            && row.video in db.videos
            && row.video.isPublished
            && (userId.Some? ==> row.video.owner == userId.value)
            && (!Missing(query) ==> matches(row.video, query))
            && row.ownerDetails in db.users
            && row.ownerDetails.id == row.video.owner)
      && SortedBy(rows, RowKey(FeedSort(sortBy, sortType).0), FeedSort(sortBy, sortType).1)
      && (WellFormed(db) ==> NoDuplicates(rows))
  {
    var stages := FeedStages(query, sortBy, sortType, userId).value;
    var sort := FeedSort(sortBy, sortType);
    var kept := RunStages(db.videos, stages, matches);
    var join := (v: Video) => FeedRowsOf(db.users, v);
    FeedKeeps(db.videos, query, sortBy, sortType, userId, matches);
    FlatMapSorted(kept, join, FieldKey(sort.0), RowKey(sort.0), sort.1);
    if WellFormed(db) {
      DistinctByNoDuplicates(db.videos, VideoId);
      RunStagesKeepsDistinct(db.videos, stages, matches);
      NoDuplicatesFlatMap(kept, join);
    }
  }

  // ---------------------------------------------------------------------------
  // Publishing

  /** What the upload of a video file yields: the stored asset and its duration. */
  datatype VideoUpload = VideoUpload(asset: Asset, duration: nat)

  /** publishVideo: a blank title or description, or a video file or thumbnail
      that is missing or fails to upload, is refused with 400; otherwise a new
      unpublished video with no views, owned by the viewer, is stored. */
  method PublishVideo(st: Store, title: string, description: string,
                      videoFile: Option<VideoUpload>, thumbnail: Option<Asset>,
                      viewer: Id, now: int) returns (r: Result<Video>)
    requires st.Valid()
    modifies st
    ensures st.Valid()
    ensures r.Err? <==> Blank(title) || Blank(description) || videoFile.None? || thumbnail.None?
    ensures r.Err? ==> r.status == 400 && st.Snapshot() == old(st.Snapshot())
    ensures r.Ok? ==>
      && r.value == Video(ObjectId(old(st.nextId)), title, description, videoFile.value.asset,
                          thumbnail.value, videoFile.value.duration, 0, false, viewer, now)
      && st.Snapshot() == old(st.Snapshot()).(videos := old(st.videos) + [r.value], nextId := old(st.nextId) + 1)
  {
    if Blank(title) || Blank(description) {
      return Err(400);
    }
    if videoFile.None? || thumbnail.None? {
      return Err(400);
    }
    var video := Video(ObjectId(st.nextId), title, description, videoFile.value.asset,
                       thumbnail.value, videoFile.value.duration, 0, false, viewer, now);
    WellFormedGrow(st.Snapshot());
    KeyedInsert(st.videos, VideoId, st.nextId, video);
    st.videos := st.videos + [video];
    st.nextId := st.nextId + 1;
    r := Ok(video);
  }

  /** A freshly published video stays out of every feed until it is published. */
  lemma NewVideoNotInFeed(db: Db, v: Video, stages: seq<Stage>, matches: (Video, string) -> bool)
    requires !v.isPublished
    requires MatchPublished in stages
    ensures forall row :: row in Feed(db, stages, matches) ==> row.video != v
  {
    var kept := RunStages(db.videos, stages, matches);
    forall row | row in Feed(db, stages, matches) ensures row.video != v {
      var x :| x in kept && row in FeedRowsOf(db.users, x);
      assert Passes(MatchPublished, x, matches);
    }
  }

  // ---------------------------------------------------------------------------
  // The detail page (getVideoById)

  /** The owner card of the detail page: the owner, how many subscribe to the
      owner, and whether the viewer does. */
  datatype OwnerCard = OwnerCard(user: User, subscribersCount: nat, isSubscribed: bool)

  datatype VideoDetail = VideoDetail(video: Video, owner: Option<OwnerCard>, likesCount: nat, isLiked: bool)

  function OwnerCardOf(subs: seq<Subscription>, viewer: Id): User -> OwnerCard
  {
    (u: User) => OwnerCard(u, SubscriberCount(subs, u.id), IsSubscribed(subs, viewer, u.id))
  }

  /** The detail of the video with that id as the viewer sees it, absent when
      no such video is stored. */
  function VideoDetailView(db: Db, videoId: Id, viewer: Id): (r: Option<VideoDetail>)
    ensures r.None? <==> forall v :: v in db.videos ==> v.id != videoId
    ensures r.Some? ==>
      && r.value.video in db.videos && r.value.video.id == videoId
      && r.value.likesCount == LikesCount(db.likes, OnVideo(videoId))
      && (r.value.isLiked <==> HasEdge(db.likes, LikeEdge, (viewer, OnVideo(videoId))))
      && (r.value.owner.Some? <==> exists u :: u in db.users && u.id == r.value.video.owner)
      && (r.value.owner.Some? ==>
            && r.value.owner.value.user in db.users
            && r.value.owner.value.user.id == r.value.video.owner
            && r.value.owner.value.subscribersCount == SubscriberCount(db.subscriptions, r.value.video.owner)
            && (r.value.owner.value.isSubscribed <==>
                  HasEdge(db.subscriptions, SubscriptionEdge, (viewer, r.value.video.owner))))
  {
    match FindById(db.videos, VideoId, videoId)
    case None => None
    case Some(v) =>
      IsLikedIffEdge(db.likes, OnVideo(videoId), viewer);
      OwnerCardFacts(db, v.owner, viewer);
      var owner := First(Project(Filter(db.users, HasId(UserId, v.owner)), OwnerCardOf(db.subscriptions, viewer)));
      Some(VideoDetail(v, owner, LikesCount(db.likes, OnVideo(videoId)), IsLiked(db.likes, OnVideo(videoId), viewer)))
  }

  /** The owner card is present exactly when the owner is a stored user, and
      then carries that user's subscriber figures. */
  lemma OwnerCardFacts(db: Db, owner: Id, viewer: Id)
    ensures var card := First(Project(Filter(db.users, HasId(UserId, owner)), OwnerCardOf(db.subscriptions, viewer)));
      && (card.Some? <==> exists u :: u in db.users && u.id == owner)
      && (card.Some? ==>
            && card.value.user in db.users
            && card.value.user.id == owner
            && card.value.subscribersCount == SubscriberCount(db.subscriptions, owner)
            && (card.value.isSubscribed <==> HasEdge(db.subscriptions, SubscriptionEdge, (viewer, owner))))
  {
    var owners := Filter(db.users, HasId(UserId, owner));
    if owners != [] {
      assert owners[0] in owners;
      HasIdMeans(UserId, owner, owners[0]);
      IsSubscribedIffEdge(db.subscriptions, viewer, owner);
    }
    forall u | u in db.users && u.id == owner ensures u in owners {
      HasIdMeans(UserId, owner, u);
    }
  }

  function IncViews(v: Video): Video
  {
    v.(views := v.views + 1)
  }

  /** `findByIdAndUpdate(videoId, { $inc: { views: 1 } })`. */
  function AddView(videos: seq<Video>, videoId: Id): seq<Video>
  {
    Replace(videos, HasId(VideoId, videoId), IncViews)
  }

  /** A view raises that video's count by one and changes nothing else: no
      other field, no other video. */
  lemma AddViewEffect(videos: seq<Video>, videoId: Id)
    ensures var r := AddView(videos, videoId);
      && |r| == |videos|
      && forall i :: 0 <= i < |videos| ==>
           r[i] == videos[i].(views := videos[i].views + (if videos[i].id == videoId then 1 else 0))
  {
    forall i | 0 <= i < |videos| ensures HasId(VideoId, videoId)(videos[i]) <==> videos[i].id == videoId {
      HasIdMeans(VideoId, videoId, videos[i]);
    }
  }

  /** Two fetches of the same video add two views. */
  lemma AddViewTwice(videos: seq<Video>, videoId: Id)
    ensures var r := AddView(AddView(videos, videoId), videoId);
      && |r| == |videos|
      && forall i :: 0 <= i < |videos| ==>
           r[i] == videos[i].(views := videos[i].views + (if videos[i].id == videoId then 2 else 0))
  {
    AddViewEffect(videos, videoId);
    AddViewEffect(AddView(videos, videoId), videoId);
  }

  /** getVideoById: 400 for a malformed id; otherwise the detail computed
      before the counter moves (absent when no video has the id, still a
      success) and one more view on that video. */
  method GetVideoById(st: Store, videoId: Id, viewer: Id) returns (r: Result<Option<VideoDetail>>)
    requires st.Valid()
    modifies st
    ensures st.Valid()
    ensures !ValidId(videoId) ==> r == Err(400) && st.Snapshot() == old(st.Snapshot())
    ensures ValidId(videoId) ==>
      && r == Ok(VideoDetailView(old(st.Snapshot()), videoId, viewer))
      && st.Snapshot() == old(st.Snapshot()).(videos := AddView(old(st.videos), videoId))
  {
    if !ValidId(videoId) {
      return Err(400);
    }
    var detail := VideoDetailView(st.Snapshot(), videoId, viewer);
    KeyedReplace(st.videos, VideoId, st.nextId, HasId(VideoId, videoId), IncViews);
    st.videos := AddView(st.videos, videoId);
    r := Ok(detail);
  }

  // ---------------------------------------------------------------------------
  // Owner-only changes

  function StoredVideo(db: Db, videoId: Id): Option<Video>
  {
    FindById(db.videos, VideoId, videoId)
  }

  function SetDetails(title: string, description: string, thumbnail: Asset): Video -> Video
  {
    (v: Video) => v.(title := title, description := description, thumbnail := thumbnail)
  }

  /** updateVideo: 400 when the title or description is missing, the id is
      malformed, no video has it, the viewer does not own it, or the new
      thumbnail is missing or fails to upload; otherwise only the title,
      description and thumbnail of that video change. */
  method UpdateVideo(st: Store, videoId: Id, title: string, description: string,
                     thumbnail: Option<Asset>, viewer: Id) returns (r: Result<Video>)
    requires st.Valid()
    modifies st
    ensures st.Valid()
    ensures r.Err? <==>
      || Missing(title) || Missing(description) || !ValidId(videoId)
      || StoredVideo(old(st.Snapshot()), videoId).None?
      || !IsOwner(StoredVideo(old(st.Snapshot()), videoId).value.owner, viewer)
      || thumbnail.None?
    ensures r.Err? ==> r.status == 400 && st.Snapshot() == old(st.Snapshot())
    ensures r.Ok? ==>
      && r.value == SetDetails(title, description, thumbnail.value)(StoredVideo(old(st.Snapshot()), videoId).value)
      && st.Snapshot() == old(st.Snapshot()).(
           videos := Replace(old(st.videos), HasId(VideoId, videoId), SetDetails(title, description, thumbnail.value)))
  {
    if Missing(title) || Missing(description) {
      return Err(400);
    }
    if !ValidId(videoId) {
      return Err(400);
    }
    var found := FindById(st.videos, VideoId, videoId);
    if found.None? {
      return Err(400);
    }
    if !IsOwner(found.value.owner, viewer) {
      return Err(400);
    }
    if thumbnail.None? {
      return Err(400);
    }
    var update := SetDetails(title, description, thumbnail.value);
    KeyedReplace(st.videos, VideoId, st.nextId, HasId(VideoId, videoId), update);
    st.videos := Replace(st.videos, HasId(VideoId, videoId), update);
    r := Ok(update(found.value));
  }

  /** After an update the id finds the updated video, which keeps its id,
      owner, files, counters and publish state, and every other id finds what
      it found before. */
  lemma UpdateVideoEffect(db: Db, videoId: Id, title: string, description: string, thumbnail: Asset)
    requires WellFormed(db)
    requires StoredVideo(db, videoId).Some?
    ensures var after := db.(videos := Replace(db.videos, HasId(VideoId, videoId), SetDetails(title, description, thumbnail)));
      var old_ := StoredVideo(db, videoId).value;
      && StoredVideo(after, videoId) == Some(Video(old_.id, title, description, old_.videoFile, thumbnail,
                                                   old_.duration, old_.views, old_.isPublished, old_.owner, old_.createdAt))
      && (forall other :: other != videoId ==> StoredVideo(after, other) == StoredVideo(db, other))
      && WellFormed(after)
  {
    UpdateByIdEffect(db.videos, VideoId, db.nextId, videoId, SetDetails(title, description, thumbnail));
  }

  function NotOnVideo(videoId: Id): Like -> bool
  {
    (l: Like) => l.target != OnVideo(videoId)
  }

  function CommentNotOn(videoId: Id): Comment -> bool
  {
    (c: Comment) => c.video != videoId
  }

  /** deletVideo: 400 for a malformed id, 404 when no video has it, 400 when
      the viewer does not own it; otherwise the video, every like on it and
      every comment on it are removed. */
  method DeleteVideo(st: Store, videoId: Id, viewer: Id) returns (r: Result<()>)
    requires st.Valid()
    modifies st
    ensures st.Valid()
    ensures r.Err? <==>
      || !ValidId(videoId)
      || StoredVideo(old(st.Snapshot()), videoId).None?
      || !IsOwner(StoredVideo(old(st.Snapshot()), videoId).value.owner, viewer)
    ensures !ValidId(videoId) ==> r == Err(400)
    ensures ValidId(videoId) && StoredVideo(old(st.Snapshot()), videoId).None? ==> r == Err(404)
    ensures (ValidId(videoId) && StoredVideo(old(st.Snapshot()), videoId).Some?
             && !IsOwner(StoredVideo(old(st.Snapshot()), videoId).value.owner, viewer)) ==> r == Err(400)
    ensures r.Err? ==> st.Snapshot() == old(st.Snapshot())
    ensures r.Ok? ==> st.Snapshot() == old(st.Snapshot()).(
      videos := DeleteById(old(st.videos), VideoId, videoId),
      likes := Filter(old(st.likes), NotOnVideo(videoId)),
      comments := Filter(old(st.comments), CommentNotOn(videoId)))
  {
    if !ValidId(videoId) {
      return Err(400);
    }
    var found := FindById(st.videos, VideoId, videoId);
    if found.None? {
      return Err(404);
    }
    if !IsOwner(found.value.owner, viewer) {
      return Err(400);
    }
    KeyedFilter(st.videos, VideoId, st.nextId, OtherId(VideoId, videoId));
    KeyedFilter(st.likes, LikeId, st.nextId, NotOnVideo(videoId));
    DistinctByFilter(st.likes, LikeEdge, NotOnVideo(videoId));
    KeyedFilter(st.comments, CommentId, st.nextId, CommentNotOn(videoId));
    st.videos := DeleteById(st.videos, VideoId, videoId);
    st.likes := Filter(st.likes, NotOnVideo(videoId));
    st.comments := Filter(st.comments, CommentNotOn(videoId));
    r := Ok(());
  }

  /** After the cascade nothing refers to the deleted video: it is gone, no like
      is on it and no comment is under it, while every other video, like and
      comment stays. */
  lemma DeleteVideoCascade(db: Db, videoId: Id)
    ensures var videos := DeleteById(db.videos, VideoId, videoId);
      var likes := Filter(db.likes, NotOnVideo(videoId));
      var comments := Filter(db.comments, CommentNotOn(videoId));
      && (forall v :: v in videos <==> v in db.videos && v.id != videoId)
      && (forall l :: l in likes <==> l in db.likes && l.target != OnVideo(videoId))
      && (forall c :: c in comments <==> c in db.comments && c.video != videoId)
      && LikesCount(likes, OnVideo(videoId)) == 0
  {
    var likes := Filter(db.likes, NotOnVideo(videoId));
    forall l | l in likes ensures !OnTarget(OnVideo(videoId))(l) {
    }
    assert LikesCount(likes, OnVideo(videoId)) == Count(likes, OnTarget(OnVideo(videoId)));
  }

  function FlipPublished(v: Video): Video
  {
    v.(isPublished := !v.isPublished)
  }

  /** togglePublishStatus: 400 for a malformed id, 404 when no video has it,
      400 when the viewer does not own it; otherwise the video's publish flag is
      negated and the new value answered. */
  method TogglePublishStatus(st: Store, videoId: Id, viewer: Id) returns (r: Result<bool>)
    requires st.Valid()
    modifies st
    ensures st.Valid()
    ensures r.Err? <==>
      || !ValidId(videoId)
      || StoredVideo(old(st.Snapshot()), videoId).None?
      || !IsOwner(StoredVideo(old(st.Snapshot()), videoId).value.owner, viewer)
    ensures !ValidId(videoId) ==> r == Err(400)
    ensures ValidId(videoId) && StoredVideo(old(st.Snapshot()), videoId).None? ==> r == Err(404)
    ensures (ValidId(videoId) && StoredVideo(old(st.Snapshot()), videoId).Some?
             && !IsOwner(StoredVideo(old(st.Snapshot()), videoId).value.owner, viewer)) ==> r == Err(400)
    ensures r.Err? ==> st.Snapshot() == old(st.Snapshot())
    ensures r.Ok? ==>
      && r.value == !StoredVideo(old(st.Snapshot()), videoId).value.isPublished
      && st.Snapshot() == old(st.Snapshot()).(videos := Replace(old(st.videos), HasId(VideoId, videoId), FlipPublished))
  {
    if !ValidId(videoId) {
      return Err(400);
    }
    var found := FindById(st.videos, VideoId, videoId);
    if found.None? {
      return Err(404);
    }
    if !IsOwner(found.value.owner, viewer) {
      return Err(400);
    }
    KeyedReplace(st.videos, VideoId, st.nextId, HasId(VideoId, videoId), FlipPublished);
    st.videos := Replace(st.videos, HasId(VideoId, videoId), FlipPublished);
    r := Ok(!found.value.isPublished);
  }

  /** Toggling the publish flag twice restores every video. */
  lemma TogglePublishTwice(videos: seq<Video>, videoId: Id)
    ensures var p := HasId(VideoId, videoId);
      Replace(Replace(videos, p, FlipPublished), p, FlipPublished) == videos
  {
    forall v ensures HasId(VideoId, videoId)(FlipPublished(v)) == HasId(VideoId, videoId)(v) {
      HasIdMeans(VideoId, videoId, v);
      HasIdMeans(VideoId, videoId, FlipPublished(v));
    }
    ReplaceTwice(videos, HasId(VideoId, videoId), FlipPublished);
  }
}
