/** playlist.controller.js: playlists as sets of video ids, their summaries
    and detail, membership changes with `$addToSet`/`$pull`, and the
    owner-only update and delete. */
module Playlists {
  import opened Wrappers
  import opened Collections
  import opened Text
  import opened EntityStore

  /** createPlaylist: 400 when the name or description is blank; otherwise one
      empty playlist owned by the viewer is stored. */
  method CreatePlaylist(st: Store, name: string, description: string, viewer: Id) returns (r: Result<Playlist>)
    requires st.Valid()
    modifies st
    ensures st.Valid()
    ensures r.Err? <==> Blank(name) || Blank(description)
    ensures r.Err? ==> r.status == 400 && st.Snapshot() == old(st.Snapshot())
    ensures r.Ok? ==>
      && r.value == Playlist(ObjectId(old(st.nextId)), name, description, viewer, [])
      && st.Snapshot() == old(st.Snapshot()).(playlists := old(st.playlists) + [r.value], nextId := old(st.nextId) + 1)
  {
    if Blank(name) || Blank(description) {
      return Err(400);
    }
    var playlist := Playlist(ObjectId(st.nextId), name, description, viewer, []);
    WellFormedGrow(st.Snapshot());
    KeyedInsert(st.playlists, PlaylistId, st.nextId, playlist);
    st.playlists := st.playlists + [playlist];
    st.nextId := st.nextId + 1;
    r := Ok(playlist);
  }

  // ---------------------------------------------------------------------------
  // Summaries and detail

  /** Selects the stored videos whose id is a member of `ids`. */
  function InList(ids: seq<Id>): Video -> bool
  {
    (v: Video) => v.id in ids
  }

  /** `$lookup` from the member ids into the videos: the member videos that
      exist, in store order. */
  function MemberVideos(videos: seq<Video>, p: Playlist): seq<Video>
  {
    Filter(videos, InList(p.videos))
  }

  function Views(v: Video): nat
  {
    v.views
  }

  /** A playlist summary: `_id`, name, description, `totalVideos` and
      `totalViews`. */
  datatype PlaylistSummary = PlaylistSummary(id: Id, name: string, description: string, totalVideos: nat, totalViews: nat)

  function SummaryOf(videos: seq<Video>): Playlist -> PlaylistSummary
  {
    (p: Playlist) => PlaylistSummary(p.id, p.name, p.description,
                                     |MemberVideos(videos, p)|, SumOf(MemberVideos(videos, p), Views))
  }

  function OwnedPlaylist(userId: Id): Playlist -> bool
  {
    (p: Playlist) => p.owner == userId
  }

  /** getUserPlaylists: 404 for a malformed user id and for a user with no
      playlists; otherwise one summary per playlist of the user, in store
      order. */
  function UserPlaylists(db: Db, userId: Id): (r: Result<seq<PlaylistSummary>>)
    ensures r.Err? <==> !ValidId(userId) || forall p :: p in db.playlists ==> p.owner != userId
    ensures r.Err? ==> r.status == 404
    ensures r.Ok? ==>
      && r.value != []
      && |r.value| == |Filter(db.playlists, OwnedPlaylist(userId))|
      && forall i :: 0 <= i < |r.value| ==>
           r.value[i] == SummaryOf(db.videos)(Filter(db.playlists, OwnedPlaylist(userId))[i])
  {
    if !ValidId(userId) then Err(404)
    else
      var owned := Filter(db.playlists, OwnedPlaylist(userId));
      if owned == [] then
        assert forall p :: p in db.playlists ==> !OwnedPlaylist(userId)(p);
        Err(404)
      else
        assert owned[0] in owned;
        Ok(Project(owned, SummaryOf(db.videos)))
  }

  /** Whether some stored video has the id. */
  function Resolves(videos: seq<Video>): Id -> bool
  {
    (id: Id) => exists v :: v in videos && v.id == id
  }

  /** The ids of the member videos are exactly the member ids that resolve. */
  lemma MemberIdsResolve(videos: seq<Video>, p: Playlist)
    ensures KeySet(MemberVideos(videos, p), VideoId) == (set x | x in Filter(p.videos, Resolves(videos)))
  {
    var members := MemberVideos(videos, p);
    var resolved := Filter(p.videos, Resolves(videos));
    var ids := KeySet(members, VideoId);
    var resolvedSet := set x | x in resolved;
    forall x | x in ids ensures x in resolvedSet {
      var v :| v in members && VideoId(v) == x;
      assert Resolves(videos)(x);
    }
    forall x | x in resolvedSet ensures x in ids {
      assert Resolves(videos)(x);
      var v :| v in videos && v.id == x;
      assert v in members;
    }
  }

  /** The views a stored video adds to a playlist's total: its own when the
      playlist lists it, none otherwise. */
  function ViewsIfListed(p: Playlist): Video -> nat
  {
    (v: Video) => if v.id in p.videos then v.views else 0
  }

  /** When video ids are unique and the playlist holds no id twice (both part
      of a well-formed store), `totalVideos` counts the member ids that
      resolve to a stored video, and `totalViews` is what every stored video
      adds when the playlist lists it. */
  lemma TotalsCountResolvedMembers(videos: seq<Video>, p: Playlist)
    requires DistinctBy(videos, VideoId) && NoDuplicates(p.videos)
    ensures var s := SummaryOf(videos)(p);
      && s.totalVideos == |Filter(p.videos, Resolves(videos))|
      && s.totalViews == SumOf(videos, ViewsIfListed(p))
      && forall v :: v in MemberVideos(videos, p) <==> v in videos && v.id in p.videos
  {
    SumOfFilter(videos, InList(p.videos), Views, ViewsIfListed(p));
    var members := MemberVideos(videos, p);
    var resolved := Filter(p.videos, Resolves(videos));
    DistinctByFilter(videos, VideoId, InList(p.videos));
    DistinctCard(members, VideoId);
    assert NoDuplicates(resolved) by {
      NoDuplicatesDistinct(p.videos);
      DistinctByFilter(p.videos, (x: Id) => x, Resolves(videos));
      NoDuplicatesDistinct(resolved);
    }
    NoDuplicatesCard(resolved);
    MemberIdsResolve(videos, p);
  }

  /** A playlist detail: its name and description, totals, the member videos
      and the owner (`$first` of the owner lookup). */
  datatype PlaylistDetail = PlaylistDetail(
    name: string, description: string, totalVideos: nat, totalViews: nat,
    videos: seq<Video>, owner: Option<User>)

  /** `$match: { "videos.isPublished": true }` on the looked-up array: some
      member video is published. */
  function HasPublishedMember(videos: seq<Video>): Playlist -> bool
  {
    (p: Playlist) => exists v :: v in MemberVideos(videos, p) && v.isPublished
  }

  function DetailOf(db: Db): Playlist -> PlaylistDetail
  {
    (p: Playlist) => PlaylistDetail(p.name, p.description,
                                    |MemberVideos(db.videos, p)|, SumOf(MemberVideos(db.videos, p), Views),
                                    MemberVideos(db.videos, p), First(Filter(db.users, HasId(UserId, p.owner))))
  }

  /** The playlist with the id, kept only when one of its videos is
      published. */
  function ShownWithId(videos: seq<Video>, playlistId: Id): Playlist -> bool
  {
    (p: Playlist) => p.id == playlistId && HasPublishedMember(videos)(p)
  }

  /** getPlaylistById: 400 for a malformed id; otherwise the playlist with
      that id, present only when at least one of its videos is published. The
      detail lists all member videos, published or not. */
  function PlaylistById(db: Db, playlistId: Id): (r: Result<seq<PlaylistDetail>>)
    ensures r.Err? <==> !ValidId(playlistId)
    ensures r.Err? ==> r.status == 400
    ensures r.Ok? ==> forall d :: d in r.value <==>
      exists p :: p in db.playlists && p.id == playlistId && HasPublishedMember(db.videos)(p) && d == DetailOf(db)(p)
  {
    if !ValidId(playlistId) then Err(400)
    else
      var found := Filter(db.playlists, ShownWithId(db.videos, playlistId));
      ProjectMembers(found, DetailOf(db));
      Ok(Project(found, DetailOf(db)))
  }

  // ---------------------------------------------------------------------------
  // Membership

  function AddMember(videoId: Id): Playlist -> Playlist
  {
    (p: Playlist) => p.(videos := AddToSet(p.videos, videoId))
  }

  function RemoveMember(videoId: Id): Playlist -> Playlist
  {
    (p: Playlist) => p.(videos := Pull(p.videos, videoId))
  }

  /** A membership change applied to one playlist keeps the store well formed
      when it keeps each playlist free of duplicates. */
  lemma PlaylistsStayWellFormed(db: Db, playlistId: Id, f: Playlist -> Playlist)
    requires WellFormed(db)
    requires forall p: Playlist :: PlaylistId(f(p)) == PlaylistId(p)
    requires forall p: Playlist :: NoDuplicates(p.videos) ==> NoDuplicates(f(p).videos)
    ensures WellFormed(db.(playlists := Replace(db.playlists, HasId(PlaylistId, playlistId), f)))
  {
    var r := Replace(db.playlists, HasId(PlaylistId, playlistId), f);
    KeyedReplace(db.playlists, PlaylistId, db.nextId, HasId(PlaylistId, playlistId), f);
    forall q | q in r ensures NoDuplicates(q.videos) {
      var i :| 0 <= i < |r| && r[i] == q;
      assert db.playlists[i] in db.playlists;
    }
  }

  /** The guard shared by addVideoToPlaylist and removeVideoFromPlaylist, as
      intended: 400 when no playlist or no video has the id, 401 when the
      viewer does not own the playlist, and through exactly when both are
      found and the viewer owns the playlist. The written test names the
      video's owner; the model checks the playlist's owner, the only one the
      other playlist handlers let change a playlist. */
  function MembershipCheck(db: Db, playlistId: Id, videoId: Id, viewer: Id): (r: Option<nat>)
    ensures r == Some(400) <==>
      FindById(db.playlists, PlaylistId, playlistId).None? || FindById(db.videos, VideoId, videoId).None?
    ensures r == Some(401) <==>
      && FindById(db.playlists, PlaylistId, playlistId).Some? && FindById(db.videos, VideoId, videoId).Some?
      && !IsOwner(FindById(db.playlists, PlaylistId, playlistId).value.owner, viewer)
    ensures r.None? <==>
      && FindById(db.playlists, PlaylistId, playlistId).Some? && FindById(db.videos, VideoId, videoId).Some?
      && IsOwner(FindById(db.playlists, PlaylistId, playlistId).value.owner, viewer)
  {
    match FindById(db.playlists, PlaylistId, playlistId)
    case None => Some(400)
    case Some(p) =>
      if FindById(db.videos, VideoId, videoId).None? then Some(400)
      else if !IsOwner(p.owner, viewer) then Some(401)
      else None
  }

  /** The guard as the add and remove handlers write it: the owner test
      compares the `toString` method itself with a string, which never holds,
      so every request that gets past the two lookups is refused with 401. */
  function MembershipCheckAsWritten(db: Db, playlistId: Id, videoId: Id): (r: Option<nat>)
    ensures FindById(db.playlists, PlaylistId, playlistId).Some? && FindById(db.videos, VideoId, videoId).Some? ==>
      r == Some(401)
  {
    if FindById(db.playlists, PlaylistId, playlistId).None? then Some(400)
    else if FindById(db.videos, VideoId, videoId).None? then Some(400)
    else Some(401)
  }

  /** The owner of a stored playlist adding a stored video: refused as
      written, let through by the corrected guard. */
  lemma AsWrittenGuardRefusesOwner(db: Db, p: Playlist, v: Video)
    requires WellFormed(db) && p in db.playlists && v in db.videos
    ensures MembershipCheckAsWritten(db, p.id, v.id) == Some(401)
    ensures MembershipCheck(db, p.id, v.id, p.owner) == None
  {
    FindByIdUnique(db.playlists, PlaylistId, db.nextId, p.id, p);
    FindByIdUnique(db.videos, VideoId, db.nextId, v.id, v);
  }

  /** addVideoToPlaylist: after the guard, `$addToSet` the video id. */
  method AddVideoToPlaylist(st: Store, playlistId: Id, videoId: Id, viewer: Id) returns (r: Result<Playlist>)
    requires st.Valid()
    modifies st
    ensures st.Valid()
    ensures MembershipCheck(old(st.Snapshot()), playlistId, videoId, viewer).Some? ==>
      && r == Err(MembershipCheck(old(st.Snapshot()), playlistId, videoId, viewer).value)
      && st.Snapshot() == old(st.Snapshot())
    ensures MembershipCheck(old(st.Snapshot()), playlistId, videoId, viewer).None? ==>
      && r == Ok(AddMember(videoId)(FindById(old(st.playlists), PlaylistId, playlistId).value))
      && st.Snapshot() == old(st.Snapshot()).(
           playlists := Replace(old(st.playlists), HasId(PlaylistId, playlistId), AddMember(videoId)))
  {
    var check := MembershipCheck(st.Snapshot(), playlistId, videoId, viewer);
    if check.Some? {
      return Err(check.value);
    }
    var p := FindById(st.playlists, PlaylistId, playlistId).value;
    forall q: Playlist | NoDuplicates(q.videos) ensures NoDuplicates(AddMember(videoId)(q).videos) {
      AddToSetOnce(q.videos, videoId);
    }
    PlaylistsStayWellFormed(st.Snapshot(), playlistId, AddMember(videoId));
    st.playlists := Replace(st.playlists, HasId(PlaylistId, playlistId), AddMember(videoId));
    r := Ok(AddMember(videoId)(p));
  }

  /** removeVideoFromPlaylist: after the same guard, `$pull` the video id. */
  method RemoveVideoFromPlaylist(st: Store, playlistId: Id, videoId: Id, viewer: Id) returns (r: Result<Playlist>)
    requires st.Valid()
    modifies st
    ensures st.Valid()
    ensures MembershipCheck(old(st.Snapshot()), playlistId, videoId, viewer).Some? ==>
      && r == Err(MembershipCheck(old(st.Snapshot()), playlistId, videoId, viewer).value)
      && st.Snapshot() == old(st.Snapshot())
    ensures MembershipCheck(old(st.Snapshot()), playlistId, videoId, viewer).None? ==>
      && r == Ok(RemoveMember(videoId)(FindById(old(st.playlists), PlaylistId, playlistId).value))
      && st.Snapshot() == old(st.Snapshot()).(
           playlists := Replace(old(st.playlists), HasId(PlaylistId, playlistId), RemoveMember(videoId)))
  {
    var check := MembershipCheck(st.Snapshot(), playlistId, videoId, viewer);
    if check.Some? {
      return Err(check.value);
    }
    var p := FindById(st.playlists, PlaylistId, playlistId).value;
    forall q: Playlist | NoDuplicates(q.videos) ensures NoDuplicates(RemoveMember(videoId)(q).videos) {
      PullRemoves(q.videos, videoId);
    }
    PlaylistsStayWellFormed(st.Snapshot(), playlistId, RemoveMember(videoId));
    st.playlists := Replace(st.playlists, HasId(PlaylistId, playlistId), RemoveMember(videoId));
    r := Ok(RemoveMember(videoId)(p));
  }

  /** Adding has set semantics: the video is then a member exactly once, the
      earlier members keep their order, adding a member again changes nothing,
      and removing it right after an add restores the playlist. */
  lemma AddMemberSetSemantics(p: Playlist, videoId: Id)
    requires NoDuplicates(p.videos)
    ensures var q := AddMember(videoId)(p);
      && Count(q.videos, Is(videoId)) == 1
      && q.videos[..|p.videos|] == p.videos
      && (videoId in p.videos ==> q == p)
      && (videoId !in p.videos ==> RemoveMember(videoId)(q) == p)
  {
    AddToSetOnce(p.videos, videoId);
    if videoId !in p.videos {
      PullUndoesAddToSet(p.videos, videoId);
    }
  }

  /** Removing leaves the video out and every other member in, in the same
      order, and touches no other field of the playlist; removing a video
      that is not a member changes nothing. */
  lemma RemoveMemberSetSemantics(p: Playlist, videoId: Id)
    requires NoDuplicates(p.videos)
    ensures var q := RemoveMember(videoId)(p);
      && videoId !in q.videos
      && (forall x :: x in q.videos <==> x in p.videos && x != videoId)
      && (forall i :: 0 <= i < |p.videos| && p.videos[i] == videoId ==> q.videos == p.videos[..i] + p.videos[i + 1..])
      && (videoId !in p.videos ==> q == p)
      && q.(videos := p.videos) == p
  {
    PullRemoves(p.videos, videoId);
    forall i | 0 <= i < |p.videos| && p.videos[i] == videoId
      ensures Pull(p.videos, videoId) == p.videos[..i] + p.videos[i + 1..]
    {
      var a, b := p.videos[..i], p.videos[i + 1..];
      assert p.videos == a + [videoId] + b;
      forall j | 0 <= j < |a| ensures a[j] != videoId {
        assert a[j] == p.videos[j];
      }
      forall j | 0 <= j < |b| ensures b[j] != videoId {
        assert b[j] == p.videos[i + 1 + j];
      }
      PullClosesGap(a, videoId, b);
    }
    if videoId !in p.videos {
      PullAbsent(p.videos, videoId);
    }
  }

  // ---------------------------------------------------------------------------
  // Owner-only changes

  /** deletePlaylist: 404 for a malformed id, 400 for an id no playlist has,
      and status 200 thrown as an error for a viewer who is not the owner;
      otherwise exactly that playlist is removed. */
  method DeletePlaylist(st: Store, playlistId: Id, viewer: Id) returns (r: Result<()>)
    requires st.Valid()
    modifies st
    ensures st.Valid()
    ensures r.Err? <==>
      || !ValidId(playlistId)
      || FindById(old(st.playlists), PlaylistId, playlistId).None?
      || !IsOwner(FindById(old(st.playlists), PlaylistId, playlistId).value.owner, viewer)
    ensures !ValidId(playlistId) ==> r == Err(404)
    ensures ValidId(playlistId) && FindById(old(st.playlists), PlaylistId, playlistId).None? ==> r == Err(400)
    ensures (ValidId(playlistId) && FindById(old(st.playlists), PlaylistId, playlistId).Some?
             && !IsOwner(FindById(old(st.playlists), PlaylistId, playlistId).value.owner, viewer)) ==> r == Err(200)
    ensures r.Err? ==> st.Snapshot() == old(st.Snapshot())
    ensures r.Ok? ==> st.Snapshot() == old(st.Snapshot()).(playlists := DeleteById(old(st.playlists), PlaylistId, playlistId))
  {
    var check := IdCheck(playlistId, 404);
    if check.Some? {
      return Err(check.value);
    }
    var found := FindById(st.playlists, PlaylistId, playlistId);
    if found.None? {
      return Err(400);
    }
    if !IsOwner(found.value.owner, viewer) {
      return Err(200);
    }
    KeyedFilter(st.playlists, PlaylistId, st.nextId, OtherId(PlaylistId, playlistId));
    st.playlists := DeleteById(st.playlists, PlaylistId, playlistId);
    r := Ok(());
  }

  /** As written, deletePlaylist and updatePlaylist refuse every playlist a
      well-formed store holds with 404, while the corrected check lets them
      through. */
  lemma InvertedCheckRefusesStoredPlaylists(db: Db, p: Playlist)
    requires WellFormed(db) && p in db.playlists
    ensures IdCheckInverted(p.id, 404) == Some(404)
    ensures IdCheck(p.id, 404) == None
  {
  }

  function SetNameAndDescription(name: string, description: string): Playlist -> Playlist
  {
    (p: Playlist) => p.(name := name, description := description)
  }

  /** updatePlaylist: 400 when the name or description is blank, 404 for a
      malformed id, 400 for an id no playlist has, 404 for a viewer who is not
      the owner; otherwise only that playlist's name and description change. */
  method UpdatePlaylist(st: Store, playlistId: Id, name: string, description: string, viewer: Id)
    returns (r: Result<Playlist>)
    requires st.Valid()
    modifies st
    ensures st.Valid()
    ensures r.Err? <==>
      || Blank(name) || Blank(description) || !ValidId(playlistId)
      || FindById(old(st.playlists), PlaylistId, playlistId).None?
      || !IsOwner(FindById(old(st.playlists), PlaylistId, playlistId).value.owner, viewer)
    ensures (Blank(name) || Blank(description)) ==> r == Err(400)
    ensures (!Blank(name) && !Blank(description) && !ValidId(playlistId)) ==> r == Err(404)
    ensures (!Blank(name) && !Blank(description) && ValidId(playlistId)
             && FindById(old(st.playlists), PlaylistId, playlistId).None?) ==> r == Err(400)
    ensures (!Blank(name) && !Blank(description) && ValidId(playlistId)
             && FindById(old(st.playlists), PlaylistId, playlistId).Some?
             && !IsOwner(FindById(old(st.playlists), PlaylistId, playlistId).value.owner, viewer)) ==> r == Err(404)
    ensures r.Err? ==> st.Snapshot() == old(st.Snapshot())
    ensures r.Ok? ==>
      && r.value == SetNameAndDescription(name, description)(FindById(old(st.playlists), PlaylistId, playlistId).value)
      && st.Snapshot() == old(st.Snapshot()).(
           playlists := Replace(old(st.playlists), HasId(PlaylistId, playlistId), SetNameAndDescription(name, description)))
  {
    if Blank(name) || Blank(description) {
      return Err(400);
    }
    var check := IdCheck(playlistId, 404);
    if check.Some? {
      return Err(check.value);
    }
    var found := FindById(st.playlists, PlaylistId, playlistId);
    if found.None? {
      return Err(400);
    }
    if !IsOwner(found.value.owner, viewer) {
      return Err(404);
    }
    PlaylistsStayWellFormed(st.Snapshot(), playlistId, SetNameAndDescription(name, description));
    st.playlists := Replace(st.playlists, HasId(PlaylistId, playlistId), SetNameAndDescription(name, description));
    r := Ok(SetNameAndDescription(name, description)(found.value));
  }

  /** After an update the id finds the playlist with only its name and
      description changed (same owner, same members), and every other id finds
      what it found before. */
  lemma UpdatePlaylistEffect(playlists: seq<Playlist>, bound: nat, playlistId: Id, name: string, description: string)
    requires Keyed(playlists, PlaylistId, bound)
    requires FindById(playlists, PlaylistId, playlistId).Some?
    ensures var after := Replace(playlists, HasId(PlaylistId, playlistId), SetNameAndDescription(name, description));
      var p := FindById(playlists, PlaylistId, playlistId).value;
      && FindById(after, PlaylistId, playlistId) == Some(Playlist(p.id, name, description, p.owner, p.videos))
      && (forall other :: other != playlistId ==>
            FindById(after, PlaylistId, other) == FindById(playlists, PlaylistId, other))
  {
    UpdateByIdEffect(playlists, PlaylistId, bound, playlistId, SetNameAndDescription(name, description));
  }
}
