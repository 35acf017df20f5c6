/** The entity store the controllers read and write: the seven collections of
    the platform (users, videos, comments, tweets, likes, subscriptions,
    playlists) held in memory, with the identifiers the store allocates. */
module EntityStore {
  import opened Wrappers
  import opened Collections

  /** A document identifier as a controller receives it: a well-formed
      ObjectId, or text that is not one. */
  datatype Id = ObjectId(n: nat) | Malformed(text: string)

  /** `isValidObjectId`: the ObjectId format itself is not modelled. */
  predicate ValidId(id: Id)
  {
    id.ObjectId?
  }

  /** The id check a controller starts with: `Some(status)` is the error it
      throws for a malformed id, `None` lets the request through. */
  function IdCheck(id: Id, status: nat): (r: Option<nat>)
    ensures r.None? <==> ValidId(id)
    ensures r.Some? ==> r.value == status
  {
    if ValidId(id) then None else Some(status)
  }

  /** The same check with its condition inverted (`if (isValidObjectId(id)) throw`),
      as the like toggles and two playlist handlers are written. */
  function IdCheckInverted(id: Id, status: nat): (r: Option<nat>)
  {
    if ValidId(id) then Some(status) else None
  }

  /** A media file held by the blob store, known only by its URL and asset id. */
  datatype Asset = Asset(url: string, assetId: string)

  datatype User = User(id: Id, username: string, fullName: string, avatar: string)

  datatype Video = Video(
    id: Id,
    title: string,
    description: string,
    videoFile: Asset,
    thumbnail: Asset,
    duration: nat,
    views: nat,
    isPublished: bool,
    owner: Id,
    createdAt: int)

  datatype Comment = Comment(id: Id, content: string, video: Id, owner: Id, createdAt: int)

  datatype Tweet = Tweet(id: Id, content: string, owner: Id, createdAt: int)

  /** What a like is on: exactly one of a video, a comment or a tweet. */
  datatype Target = OnVideo(video: Id) | OnComment(comment: Id) | OnTweet(tweet: Id)

  datatype Like = Like(id: Id, likedBy: Id, target: Target, createdAt: int)

  datatype Subscription = Subscription(id: Id, subscriber: Id, channel: Id)

  /** A playlist; `videos` holds video ids with set semantics. */
  datatype Playlist = Playlist(id: Id, name: string, description: string, owner: Id, videos: seq<Id>)

  function UserId(u: User): Id { u.id }
  function VideoId(v: Video): Id { v.id }
  function CommentId(c: Comment): Id { c.id }
  function TweetId(t: Tweet): Id { t.id }
  function LikeId(l: Like): Id { l.id }
  function SubscriptionId(s: Subscription): Id { s.id }
  function PlaylistId(p: Playlist): Id { p.id }

  /** The (actor, target) pair a like connects. */
  function LikeEdge(l: Like): (Id, Target) { (l.likedBy, l.target) }

  /** The (subscriber, channel) pair a subscription connects. */
  function SubscriptionEdge(s: Subscription): (Id, Id) { (s.subscriber, s.channel) }

  /** The ownership guard applied before every update and delete. */
  predicate IsOwner(owner: Id, viewer: Id)
  {
    owner == viewer
  }

  /** Selects the documents whose `_id` is `id`. */
  function HasId<T>(ident: T -> Id, id: Id): T -> bool
  {
    x => ident(x) == id
  }

  lemma HasIdMeans<T>(ident: T -> Id, id: Id, x: T)
    ensures HasId(ident, id)(x) <==> ident(x) == id
  {
  }

  /** Selects the documents whose `_id` is not `id`. */
  function OtherId<T>(ident: T -> Id, id: Id): T -> bool
  {
    x => ident(x) != id
  }

  /** `findById`: the document with that `_id`, if any. */
  function FindById<T(!new)>(s: seq<T>, ident: T -> Id, id: Id): (r: Option<T>)
    ensures r.Some? ==> r.value in s && ident(r.value) == id
    ensures r.None? ==> forall x :: x in s ==> ident(x) != id
  {
    var found := Filter(s, HasId(ident, id));
    assert found != [] ==> found[0] in found;
    First(found)
  }

  /** `findByIdAndDelete`: every document except the one with that `_id`. */
  function DeleteById<T(!new)>(s: seq<T>, ident: T -> Id, id: Id): (r: seq<T>)
    ensures forall x :: x in r <==> x in s && ident(x) != id
  {
    Filter(s, OtherId(ident, id))
  }

  /** Selects the videos a user owns. */
  function OwnedBy(owner: Id): Video -> bool
  {
    (v: Video) => v.owner == owner
  }

  /** Under a unique index on `_id`, at most one document has a given id, and
      exactly one when some document has it. */
  lemma {:induction false} AtMostOneWithId<T(!new)>(s: seq<T>, ident: T -> Id, id: Id)
    requires DistinctBy(s, ident)
    ensures |Filter(s, HasId(ident, id))| <= 1
    ensures |Filter(s, HasId(ident, id))| == 1 <==> exists x :: x in s && ident(x) == id
  {
    if s != [] {
      DistinctByTail(s, ident);
      AtMostOneWithId(s[1..], ident, id);
      if ident(s[0]) == id {
        assert Filter(s[1..], HasId(ident, id)) == [];
      }
      assert HasId(ident, id)(s[0]) <==> ident(s[0]) == id;
      assert forall x :: x in s <==> x == s[0] || x in s[1..];
    }
  }

  /** A snapshot of the whole store. */
  datatype Db = Db(
    users: seq<User>,
    videos: seq<Video>,
    comments: seq<Comment>,
    tweets: seq<Tweet>,
    likes: seq<Like>,
    subscriptions: seq<Subscription>,
    playlists: seq<Playlist>,
    nextId: nat)

  /** Every `_id` in `s` is unique and was allocated before `bound`. */
  ghost predicate Keyed<T(!new)>(s: seq<T>, ident: T -> Id, bound: nat)
  {
    && DistinctBy(s, ident)
    && forall x :: x in s ==> ident(x).ObjectId? && ident(x).n < bound
  }

  /** The store's invariant: unique `_id`s in every collection, at most one like
      per (actor, target) pair and one subscription per (subscriber, channel)
      pair, and no playlist holding a video twice. */
  ghost predicate WellFormed(db: Db)
  {
    && Keyed(db.users, UserId, db.nextId)
    && Keyed(db.videos, VideoId, db.nextId)
    && Keyed(db.comments, CommentId, db.nextId)
    && Keyed(db.tweets, TweetId, db.nextId)
    && Keyed(db.likes, LikeId, db.nextId)
    && Keyed(db.subscriptions, SubscriptionId, db.nextId)
    && Keyed(db.playlists, PlaylistId, db.nextId)
    && DistinctBy(db.likes, LikeEdge)
    && DistinctBy(db.subscriptions, SubscriptionEdge)
    && forall p :: p in db.playlists ==> NoDuplicates(p.videos)
  }

  /** Allocating an identifier keeps the store well formed. */
  lemma WellFormedGrow(db: Db)
    requires WellFormed(db)
    ensures WellFormed(db.(nextId := db.nextId + 1))
  {
  }

  /** Inserting a document with the next identifier keeps its collection keyed. */
  lemma KeyedInsert<T(!new)>(s: seq<T>, ident: T -> Id, bound: nat, x: T)
    requires Keyed(s, ident, bound)
    requires ident(x) == ObjectId(bound)
    ensures Keyed(s + [x], ident, bound + 1)
  {
    DistinctByAppend(s, ident, x);
  }

  /** Deleting documents keeps a collection keyed. */
  lemma KeyedFilter<T(!new)>(s: seq<T>, ident: T -> Id, bound: nat, p: T -> bool)
    requires Keyed(s, ident, bound)
    ensures Keyed(Filter(s, p), ident, bound)
  {
    DistinctByFilter(s, ident, p);
  }

  /** Updating fields other than `_id` keeps a collection keyed. */
  lemma KeyedReplace<T(!new)>(s: seq<T>, ident: T -> Id, bound: nat, p: T -> bool, f: T -> T)
    requires Keyed(s, ident, bound)
    requires forall x :: x in s ==> ident(f(x)) == ident(x)
    ensures Keyed(Replace(s, p, f), ident, bound)
  {
    DistinctByReplace(s, ident, p, f);
    forall y | y in Replace(s, p, f) ensures ident(y).ObjectId? && ident(y).n < bound {
      var i :| 0 <= i < |Replace(s, p, f)| && Replace(s, p, f)[i] == y;
      assert s[i] in s;
    }
  }

  /** In a keyed collection `findById` finds the only document with that id. */
  lemma FindByIdUnique<T(!new)>(s: seq<T>, ident: T -> Id, bound: nat, id: Id, x: T)
    requires Keyed(s, ident, bound)
    requires x in s && ident(x) == id
    ensures FindById(s, ident, id) == Some(x)
  {
    SameKeySameElement(s, ident, FindById(s, ident, id).value, x);
  }

  /** `findByIdAndUpdate` on a keyed collection: the document with that id
      becomes `f` of itself, every other id finds what it found before, and the
      collection stays keyed. */
  lemma UpdateByIdEffect<T(!new)>(s: seq<T>, ident: T -> Id, bound: nat, id: Id, f: T -> T)
    requires Keyed(s, ident, bound)
    requires forall x :: ident(f(x)) == ident(x)
    ensures var r := Replace(s, HasId(ident, id), f);
      && Keyed(r, ident, bound)
      && FindById(r, ident, id) == (match FindById(s, ident, id) case Some(x) => Some(f(x)) case None => None)
      && forall other :: other != id ==> FindById(r, ident, other) == FindById(s, ident, other)
  {
    var r := Replace(s, HasId(ident, id), f);
    KeyedReplace(s, ident, bound, HasId(ident, id), f);
    forall other ensures FindById(r, ident, other) == (
      if other == id then (match FindById(s, ident, id) case Some(x) => Some(f(x)) case None => None)
      else FindById(s, ident, other))
    {
      match FindById(s, ident, other)
      case Some(x) =>
        var i :| 0 <= i < |s| && s[i] == x;
        assert r[i] in r;
        HasIdMeans(ident, id, x);
        FindByIdUnique(r, ident, bound, other, r[i]);
      case None =>
        forall y | y in r ensures ident(y) != other {
          var i :| 0 <= i < |r| && r[i] == y;
          assert s[i] in s;
        }
    }
  }

  /** `findByIdAndDelete` on a keyed collection: the id finds nothing
      afterwards, every other id finds what it found before, and the collection
      stays keyed. */
  lemma DeleteByIdEffect<T(!new)>(s: seq<T>, ident: T -> Id, bound: nat, id: Id)
    requires Keyed(s, ident, bound)
    ensures var r := DeleteById(s, ident, id);
      && Keyed(r, ident, bound)
      && FindById(r, ident, id).None?
      && forall other :: other != id ==> FindById(r, ident, other) == FindById(s, ident, other)
  {
    var r := DeleteById(s, ident, id);
    KeyedFilter(s, ident, bound, OtherId(ident, id));
    forall other | other != id ensures FindById(r, ident, other) == FindById(s, ident, other) {
      match FindById(s, ident, other)
      case Some(x) =>
        assert x in r;
        FindByIdUnique(r, ident, bound, other, x);
      case None =>
    }
  }

  /** The store: one mutable sequence per collection and the identifier counter. */
  class Store {
    var users: seq<User>
    var videos: seq<Video>
    var comments: seq<Comment>
    var tweets: seq<Tweet>
    var likes: seq<Like>
    var subscriptions: seq<Subscription>
    var playlists: seq<Playlist>
    var nextId: nat

    function Snapshot(): Db
      reads this
    {
      Db(users, videos, comments, tweets, likes, subscriptions, playlists, nextId)
    }

    ghost predicate Valid()
      reads this
    {
      WellFormed(Snapshot())
    }

    /** A store loaded with the documents of a well-formed snapshot. */
    constructor (db: Db)
      requires WellFormed(db)
      ensures Valid() && Snapshot() == db
    {
      users, videos, comments, tweets := db.users, db.videos, db.comments, db.tweets;
      likes, subscriptions, playlists, nextId := db.likes, db.subscriptions, db.playlists, db.nextId;
    }
  }
}
