/** comment.controller.js: the comment list under a video and the comment
    create, edit and delete operations. */
module Comments {
  import opened Wrappers
  import opened Collections
  import opened Text
  import opened EntityStore
  import opened Edges
  import opened Likes

  /** A row of a video's comment list: the comment, its author (`$first` of the
      author lookup, absent when the author is gone), its like count and
      whether the viewer likes it. */
  datatype CommentRow = CommentRow(comment: Comment, owner: Option<User>, likesCount: nat, isLiked: bool)

  function CommentRowOf(db: Db, viewer: Id): Comment -> CommentRow
  {
    (c: Comment) => CommentRow(c, First(Filter(db.users, HasId(UserId, c.owner))),
                               LikesCount(db.likes, OnComment(c.id)), IsLiked(db.likes, OnComment(c.id), viewer))
  }

  /** What a comment row says: the author when stored, the number of likes on
      the comment, and whether the viewer's like on it exists. */
  lemma CommentRowFacts(db: Db, viewer: Id, c: Comment)
    ensures var row := CommentRowOf(db, viewer)(c);
      && row.comment == c
      && (row.owner.Some? <==> exists u :: u in db.users && u.id == c.owner)
      && (row.owner.Some? ==> row.owner.value in db.users && row.owner.value.id == c.owner)
      && row.likesCount == LikesCount(db.likes, OnComment(c.id))
      && (row.isLiked <==> HasEdge(db.likes, LikeEdge, (viewer, OnComment(c.id))))
  {
    var owners := Filter(db.users, HasId(UserId, c.owner));
    if owners != [] {
      assert owners[0] in owners;
      HasIdMeans(UserId, c.owner, owners[0]);
    }
    forall u | u in db.users && u.id == c.owner ensures u in owners {
      HasIdMeans(UserId, c.owner, u);
    }
    IsLikedIffEdge(db.likes, OnComment(c.id), viewer);
  }

  function UnderVideo(videoId: Id): Comment -> bool
  {
    (c: Comment) => c.video == videoId
  }

  function RowCreatedAt(row: CommentRow): int
  {
    row.comment.createdAt
  }

  /** getVideoComments, page windowing aside: 404 when no video has the id;
      otherwise one row per comment under the video, newest first. */
  function VideoComments(db: Db, videoId: Id, viewer: Id): (r: Result<seq<CommentRow>>)
    ensures r.Err? <==> forall v :: v in db.videos ==> v.id != videoId
    ensures r.Err? ==> r.status == 404
    ensures r.Ok? ==>
      && |r.value| == |Filter(db.comments, UnderVideo(videoId))|
      && (forall row :: row in r.value <==>
            row.comment in db.comments && row.comment.video == videoId
            && row == CommentRowOf(db, viewer)(row.comment))
      && SortedBy(r.value, RowCreatedAt, false)
  {
    if FindById(db.videos, VideoId, videoId).None? then Err(404)
    else
      var under := Filter(db.comments, UnderVideo(videoId));
      var rows := Project(under, CommentRowOf(db, viewer));
      var sorted := SortBy(rows, RowCreatedAt, false);
      SameElements(sorted, rows);
      assert |sorted| == |rows| by {
        assert |multiset(sorted)| == |multiset(rows)|;
      }
      assert forall row :: row in rows <==>
        row.comment in db.comments && row.comment.video == videoId
        && row == CommentRowOf(db, viewer)(row.comment) by {
        forall row ensures row in rows <==>
          row.comment in db.comments && row.comment.video == videoId
          && row == CommentRowOf(db, viewer)(row.comment) {
          if row in rows {
            var i :| 0 <= i < |rows| && rows[i] == row;
            assert under[i] in under;
          }
          if row.comment in db.comments && row.comment.video == videoId
            && row == CommentRowOf(db, viewer)(row.comment) {
            assert row.comment in under;
            var i :| 0 <= i < |under| && under[i] == row.comment;
            assert rows[i] == row;
          }
        }
      }
      Ok(sorted)
  }

  /** addComment: 400 for empty content, 404 when no video has the id;
      otherwise one comment by the viewer is stored under the video. */
  method AddComment(st: Store, videoId: Id, content: string, viewer: Id, now: int) returns (r: Result<Comment>)
    requires st.Valid()
    modifies st
    ensures st.Valid()
    ensures r.Err? <==> Missing(content) || FindById(old(st.videos), VideoId, videoId).None?
    ensures Missing(content) ==> r == Err(400)
    ensures !Missing(content) && FindById(old(st.videos), VideoId, videoId).None? ==> r == Err(404)
    ensures r.Err? ==> st.Snapshot() == old(st.Snapshot())
    ensures r.Ok? ==>
      && r.value == Comment(ObjectId(old(st.nextId)), content, videoId, viewer, now)
      && st.Snapshot() == old(st.Snapshot()).(comments := old(st.comments) + [r.value], nextId := old(st.nextId) + 1)
  {
    if Missing(content) {
      return Err(400);
    }
    if FindById(st.videos, VideoId, videoId).None? {
      return Err(404);
    }
    var comment := Comment(ObjectId(st.nextId), content, videoId, viewer, now);
    WellFormedGrow(st.Snapshot());
    KeyedInsert(st.comments, CommentId, st.nextId, comment);
    st.comments := st.comments + [comment];
    st.nextId := st.nextId + 1;
    r := Ok(comment);
  }

  /** A new comment shows up in its video's list, and the list grows by
      exactly one row. */
  lemma AddedCommentListed(db: Db, c: Comment, viewer: Id)
    requires exists v :: v in db.videos && v.id == c.video
    requires c.id == ObjectId(db.nextId)
    ensures var after := db.(comments := db.comments + [c], nextId := db.nextId + 1);
      && VideoComments(after, c.video, viewer).Ok?
      && CommentRowOf(after, viewer)(c) in VideoComments(after, c.video, viewer).value
      && |VideoComments(after, c.video, viewer).value| == |VideoComments(db, c.video, viewer).value| + 1
  {
    var after := db.(comments := db.comments + [c], nextId := db.nextId + 1);
    var v :| v in db.videos && v.id == c.video;
    var r := VideoComments(after, c.video, viewer);
    assert r.Ok?;
    assert c in after.comments;
    assert CommentRowOf(after, viewer)(c) in r.value;
    UnderVideoGrows(db.comments, c);
  }

  /** Appending a comment adds one to the comments under its video. */
  lemma UnderVideoGrows(comments: seq<Comment>, c: Comment)
    ensures |Filter(comments + [c], UnderVideo(c.video))| == |Filter(comments, UnderVideo(c.video))| + 1
  {
    FilterAppend(comments, [c], UnderVideo(c.video));
    assert Filter([c], UnderVideo(c.video)) == [c] by {
      assert [c][1..] == [];
    }
  }

  function SetContent(content: string): Comment -> Comment
  {
    (c: Comment) => c.(content := content)
  }

  /** updateComment: 400 for empty content, for an id no comment has, and for
      a viewer who is not the author; otherwise only that comment's content
      changes. */
  method UpdateComment(st: Store, commentId: Id, content: string, viewer: Id) returns (r: Result<Comment>)
    requires st.Valid()
    modifies st
    ensures st.Valid()
    ensures r.Err? <==>
      || Missing(content)
      || FindById(old(st.comments), CommentId, commentId).None?
      || !IsOwner(FindById(old(st.comments), CommentId, commentId).value.owner, viewer)
    ensures r.Err? ==> r.status == 400 && st.Snapshot() == old(st.Snapshot())
    ensures r.Ok? ==>
      && r.value == FindById(old(st.comments), CommentId, commentId).value.(content := content)
      && st.Snapshot() == old(st.Snapshot()).(
           comments := Replace(old(st.comments), HasId(CommentId, commentId), SetContent(content)))
  {
    if Missing(content) {
      return Err(400);
    }
    var found := FindById(st.comments, CommentId, commentId);
    if found.None? {
      return Err(400);
    }
    if !IsOwner(found.value.owner, viewer) {
      return Err(400);
    }
    KeyedReplace(st.comments, CommentId, st.nextId, HasId(CommentId, commentId), SetContent(content));
    st.comments := Replace(st.comments, HasId(CommentId, commentId), SetContent(content));
    r := Ok(found.value.(content := content));
  }

  /** After an edit the id finds the comment with only its content changed,
      and every other id finds what it found before. */
  lemma UpdateCommentEffect(comments: seq<Comment>, bound: nat, commentId: Id, content: string)
    requires Keyed(comments, CommentId, bound)
    requires FindById(comments, CommentId, commentId).Some?
    ensures var after := Replace(comments, HasId(CommentId, commentId), SetContent(content));
      var c := FindById(comments, CommentId, commentId).value;
      && FindById(after, CommentId, commentId) == Some(Comment(c.id, content, c.video, c.owner, c.createdAt))
      && (forall other :: other != commentId ==> FindById(after, CommentId, other) == FindById(comments, CommentId, other))
      && Keyed(after, CommentId, bound)
  {
    UpdateByIdEffect(comments, CommentId, bound, commentId, SetContent(content));
  }

  /** Keeps every like except the viewer's like on the comment. */
  function NotViewersLikeOn(commentId: Id, viewer: Id): Like -> bool
  {
    (l: Like) => !(l.target == OnComment(commentId) && l.likedBy == viewer)
  }

  /** deleteComment: 404 for an id no comment has, 400 for a viewer who is not
      the author; otherwise the comment and the viewer's own like on it are
      removed and the comment id is answered. */
  method DeleteComment(st: Store, commentId: Id, viewer: Id) returns (r: Result<Id>)
    requires st.Valid()
    modifies st
    ensures st.Valid()
    ensures r.Err? <==>
      || FindById(old(st.comments), CommentId, commentId).None?
      || !IsOwner(FindById(old(st.comments), CommentId, commentId).value.owner, viewer)
    ensures FindById(old(st.comments), CommentId, commentId).None? ==> r == Err(404)
    ensures (FindById(old(st.comments), CommentId, commentId).Some?
             && !IsOwner(FindById(old(st.comments), CommentId, commentId).value.owner, viewer)) ==> r == Err(400)
    ensures r.Err? ==> st.Snapshot() == old(st.Snapshot())
    ensures r.Ok? ==>
      && r.value == commentId
      && st.Snapshot() == old(st.Snapshot()).(
           comments := DeleteById(old(st.comments), CommentId, commentId),
           likes := Filter(old(st.likes), NotViewersLikeOn(commentId, viewer)))
  {
    var found := FindById(st.comments, CommentId, commentId);
    if found.None? {
      return Err(404);
    }
    if !IsOwner(found.value.owner, viewer) {
      return Err(400);
    }
    KeyedFilter(st.comments, CommentId, st.nextId, OtherId(CommentId, commentId));
    KeyedFilter(st.likes, LikeId, st.nextId, NotViewersLikeOn(commentId, viewer));
    DistinctByFilter(st.likes, LikeEdge, NotViewersLikeOn(commentId, viewer));
    st.comments := DeleteById(st.comments, CommentId, commentId);
    st.likes := Filter(st.likes, NotViewersLikeOn(commentId, viewer));
    r := Ok(commentId);
  }

  /** The delete removes the comment and exactly the viewer's like on it: the
      viewer no longer likes it, every other like stays, and the comment's
      like count drops by one exactly when the viewer had liked it. */
  lemma DeleteCommentCascade(db: Db, commentId: Id, viewer: Id)
    requires WellFormed(db)
    ensures var likes := Filter(db.likes, NotViewersLikeOn(commentId, viewer));
      && FindById(DeleteById(db.comments, CommentId, commentId), CommentId, commentId).None?
      && !HasEdge(likes, LikeEdge, (viewer, OnComment(commentId)))
      && (forall l :: l in likes <==> l in db.likes && LikeEdge(l) != (viewer, OnComment(commentId)))
      && LikesCount(likes, OnComment(commentId)) ==
           LikesCount(db.likes, OnComment(commentId)) - (if IsLiked(db.likes, OnComment(commentId), viewer) then 1 else 0)
  {
    var t := OnComment(commentId);
    var likes := Filter(db.likes, NotViewersLikeOn(commentId, viewer));
    DeleteByIdEffect(db.comments, CommentId, db.nextId, commentId);
    IsLikedIffEdge(db.likes, t, viewer);
    if HasEdge(db.likes, LikeEdge, (viewer, t)) {
      var e :| e in db.likes && LikeEdge(e) == (viewer, t);
      forall x | x in db.likes && !NotViewersLikeOn(commentId, viewer)(x) ensures x == e {
        SameKeySameElement(db.likes, LikeEdge, x, e);
      }
      CountOneRemoved(db.likes, NotViewersLikeOn(commentId, viewer), e, OnTarget(t));
    } else {
      FilterKeepsAll(db.likes, NotViewersLikeOn(commentId, viewer));
    }
  }

  /** Filtering out a single element lowers every count that included it by one. */
  lemma {:induction false} CountOneRemoved<T(!new)>(s: seq<T>, keep: T -> bool, e: T, q: T -> bool)
    requires NoDuplicates(s) && e in s && !keep(e)
    requires forall x :: x in s && !keep(x) ==> x == e
    ensures Count(Filter(s, keep), q) == Count(s, q) - (if q(e) then 1 else 0)
  {
    var h := s[0];
    assert s == [h] + s[1..];
    FilterAppend([h], s[1..], keep);
    var head := if keep(h) then [h] else [];
    FilterAppend(head, Filter(s[1..], keep), q);
    FilterAppend([h], s[1..], q);
    assert NoDuplicates(s[1..]) by {
      forall i, j | 0 <= i < j < |s[1..]| ensures s[1..][i] != s[1..][j] {
        assert s[1..][i] == s[i + 1] && s[1..][j] == s[j + 1];
      }
    }
    if h == e {
      assert e !in s[1..] by {
        forall j | 0 <= j < |s[1..]| ensures s[1..][j] != e {
          assert s[1..][j] == s[j + 1];
        }
      }
      FilterKeepsAll(s[1..], keep);
    } else {
      assert e in s[1..];
      CountOneRemoved(s[1..], keep, e, q);
    }
  }
}
