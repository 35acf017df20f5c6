/** subscription.controller.js: the subscribe toggle, the subscriber list of a
    channel and the channel list of a subscriber, together with the subscriber
    figures the video page derives from the subscriptions. */
module Subscriptions {
  import opened Wrappers
  import opened Collections
  import opened EntityStore
  import opened Edges

  /** Selects the subscriptions to `channel`. */
  function ToChannel(channel: Id): Subscription -> bool
  {
    (s: Subscription) => s.channel == channel
  }

  /** Selects the subscriptions `subscriber` holds. */
  function BySubscriber(subscriber: Id): Subscription -> bool
  {
    (s: Subscription) => s.subscriber == subscriber
  }

  function Subscriber(s: Subscription): Id
  {
    s.subscriber
  }

  /** `subscribersCount`: `$size` of the subscriptions to the channel. */
  function SubscriberCount(subs: seq<Subscription>, channel: Id): nat
  {
    |Filter(subs, ToChannel(channel))|
  }

  /** `isSubscribed`: `$in: [who, "$subscribers.subscriber"]`. */
  function IsSubscribed(subs: seq<Subscription>, who: Id, channel: Id): bool
  {
    who in Project(Filter(subs, ToChannel(channel)), Subscriber)
  }

  /** The subscriber flag of every view is exactly the toggle's state. */
  lemma IsSubscribedIffEdge(subs: seq<Subscription>, who: Id, channel: Id)
    ensures IsSubscribed(subs, who, channel) <==> HasEdge(subs, SubscriptionEdge, (who, channel))
    ensures IsSubscribed(subs, who, channel) ==> SubscriberCount(subs, channel) >= 1
  {
    var to := Filter(subs, ToChannel(channel));
    if IsSubscribed(subs, who, channel) {
      var i :| 0 <= i < |to| && Project(to, Subscriber)[i] == who;
      assert to[i] in to;
    }
    if HasEdge(subs, SubscriptionEdge, (who, channel)) {
      var e :| e in subs && SubscriptionEdge(e) == (who, channel);
      assert e in to;
      var i :| 0 <= i < |to| && to[i] == e;
      assert Project(to, Subscriber)[i] == who;
    }
  }

  /** The subscribe toggle's step: the subscriptions afterwards and the reported
      `subscribed`. A created subscription gets `_id` `id`. */
  function ToggleSubscriptions(subs: seq<Subscription>, viewer: Id, channel: Id, id: Id): (seq<Subscription>, bool)
  {
    Toggle(subs, SubscriptionEdge, SubscriptionId, (viewer, channel), Subscription(id, viewer, channel))
  }

  /** What a toggle does to the channel figures: the reported flag is the
      viewer's new `isSubscribed`, the channel's `subscribersCount` moves by one
      in that direction, and no other channel's count and no other user's flag
      moves. */
  lemma ToggleSubscriptionViews(subs: seq<Subscription>, viewer: Id, channel: Id, id: Id)
    requires EdgeSet(subs, SubscriptionEdge, SubscriptionId)
    requires FreshEdge(subs, SubscriptionId, Subscription(id, viewer, channel))
    ensures var r := ToggleSubscriptions(subs, viewer, channel, id);
      && IsSubscribed(r.0, viewer, channel) == r.1
      && SubscriberCount(r.0, channel) ==
           (if r.1 then SubscriberCount(subs, channel) + 1 else SubscriberCount(subs, channel) - 1)
      && (forall c :: c != channel ==> SubscriberCount(r.0, c) == SubscriberCount(subs, c))
      && (forall w :: w != viewer ==> IsSubscribed(r.0, w, channel) == IsSubscribed(subs, w, channel))
  {
    var created := Subscription(id, viewer, channel);
    var r := ToggleSubscriptions(subs, viewer, channel, id);
    if HasEdge(subs, SubscriptionEdge, (viewer, channel)) {
      var e := FindEdge(subs, SubscriptionEdge, (viewer, channel)).value;
      ToggleOff(subs, SubscriptionEdge, SubscriptionId, (viewer, channel), created);
      forall c ensures SubscriberCount(r.0, c) == SubscriberCount(subs, c) - (if e.channel == c then 1 else 0) {
        CountDeleteOne(subs, SubscriptionId, e, ToChannel(c));
      }
      forall w | w != viewer ensures IsSubscribed(r.0, w, channel) == IsSubscribed(subs, w, channel) {
        IsSubscribedIffEdge(r.0, w, channel);
        IsSubscribedIffEdge(subs, w, channel);
        if HasEdge(subs, SubscriptionEdge, (w, channel)) {
          var x :| x in subs && SubscriptionEdge(x) == (w, channel);
          assert x in r.0;
        }
      }
    } else {
      ToggleOn(subs, SubscriptionEdge, SubscriptionId, (viewer, channel), created);
      assert created in r.0;
      forall c ensures SubscriberCount(r.0, c) == SubscriberCount(subs, c) + (if channel == c then 1 else 0) {
        CountAppendOne(subs, created, ToChannel(c));
      }
      forall w | w != viewer ensures IsSubscribed(r.0, w, channel) == IsSubscribed(subs, w, channel) {
        IsSubscribedIffEdge(r.0, w, channel);
        IsSubscribedIffEdge(subs, w, channel);
      }
    }
    IsSubscribedIffEdge(r.0, viewer, channel);
  }

  /** toggleSubscription: check the channel id, then delete the viewer's
      subscription to the channel if there is one and create it otherwise,
      answering the new `subscribed`. */
  method ToggleSubscription(st: Store, channelId: Id, viewer: Id) returns (r: Result<bool>)
    requires st.Valid()
    modifies st
    ensures st.Valid()
    ensures !ValidId(channelId) ==> r == Err(404) && st.Snapshot() == old(st.Snapshot())
    ensures ValidId(channelId) ==>
      var step := ToggleSubscriptions(old(st.subscriptions), viewer, channelId, ObjectId(old(st.nextId)));
      && r == Ok(step.1)
      && st.Snapshot() == old(st.Snapshot()).(
           subscriptions := step.0,
           nextId := if step.1 then old(st.nextId) + 1 else old(st.nextId))
  {
    var check := IdCheck(channelId, 404);
    if check.Some? {
      return Err(check.value);
    }
    var created := Subscription(ObjectId(st.nextId), viewer, channelId);
    match FindEdge(st.subscriptions, SubscriptionEdge, (viewer, channelId))
    case Some(e) =>
      ToggleOff(st.subscriptions, SubscriptionEdge, SubscriptionId, (viewer, channelId), created);
      KeyedFilter(st.subscriptions, SubscriptionId, st.nextId, OtherId(SubscriptionId, e.id));
      st.subscriptions := DeleteById(st.subscriptions, SubscriptionId, e.id);
      r := Ok(false);
    case None =>
      ToggleOn(st.subscriptions, SubscriptionEdge, SubscriptionId, (viewer, channelId), created);
      WellFormedGrow(st.Snapshot());
      KeyedInsert(st.subscriptions, SubscriptionId, st.nextId, created);
      st.subscriptions := st.subscriptions + [created];
      st.nextId := st.nextId + 1;
      r := Ok(true);
  }

  /** A row of a channel's subscriber list: the subscriber's public fields, how
      many subscribe to the subscriber, and whether the channel itself is one
      of them. */
  datatype SubscriberRow = SubscriberRow(subscriber: User, subscribedToSubscriber: bool, subscriberCount: nat)

  /** The row a subscriber's user document becomes, given the channel listed. */
  function SubscriberRowOf(subs: seq<Subscription>, channel: Id, u: User): SubscriberRow
  {
    SubscriberRow(u, IsSubscribed(subs, channel, u.id), SubscriberCount(subs, u.id))
  }

  /** The rows one subscription produces: one per user with the subscriber's
      id, so at most one when user ids are unique. */
  function SubscriberRowsOf(db: Db, channel: Id, s: Subscription): (rows: seq<SubscriberRow>)
    ensures forall row :: row in rows <==>
      row.subscriber in db.users && row.subscriber.id == s.subscriber
      && row == SubscriberRowOf(db.subscriptions, channel, row.subscriber)
    ensures DistinctBy(db.users, UserId) ==> |rows| <= 1
  {
    var users := Filter(db.users, HasId(UserId, s.subscriber));
    var rows := Project(users, (u: User) => SubscriberRowOf(db.subscriptions, channel, u));
    assert DistinctBy(db.users, UserId) ==> |rows| <= 1 by {
      if DistinctBy(db.users, UserId) {
        AtMostOneWithId(db.users, UserId, s.subscriber);
      }
    }
    assert forall row :: row in rows <==>
      row.subscriber in db.users && row.subscriber.id == s.subscriber
      && row == SubscriberRowOf(db.subscriptions, channel, row.subscriber) by {
      forall row ensures row in rows <==>
        row.subscriber in db.users && row.subscriber.id == s.subscriber
        && row == SubscriberRowOf(db.subscriptions, channel, row.subscriber) {
        if row in rows {
          var i :| 0 <= i < |rows| && rows[i] == row;
          assert users[i] in users;
          HasIdMeans(UserId, s.subscriber, users[i]);
        }
        if row.subscriber in db.users && row.subscriber.id == s.subscriber
          && row == SubscriberRowOf(db.subscriptions, channel, row.subscriber) {
          HasIdMeans(UserId, s.subscriber, row.subscriber);
          assert row.subscriber in users;
          var i :| 0 <= i < |users| && users[i] == row.subscriber;
          assert rows[i] == row;
        }
      }
    }
    rows
  }

  /** getUserChannelSubscribers: 404 for a malformed channel id; otherwise one
      row per subscription to the channel whose subscriber is a stored user:
      the rows are exactly those subscribers' rows, and in a well-formed store
      none appears twice. */
  function ChannelSubscribers(db: Db, channelId: Id): (r: Result<seq<SubscriberRow>>)
    ensures r.Err? <==> !ValidId(channelId)
    ensures r.Err? ==> r.status == 404
    ensures r.Ok? ==> forall row :: row in r.value <==>
      && row.subscriber in db.users
      && HasEdge(db.subscriptions, SubscriptionEdge, (row.subscriber.id, channelId))
      && row.subscribedToSubscriber == IsSubscribed(db.subscriptions, channelId, row.subscriber.id)
      && row.subscriberCount == SubscriberCount(db.subscriptions, row.subscriber.id)
    ensures r.Ok? && WellFormed(db) ==> NoDuplicates(r.value)
  {
    if !ValidId(channelId) then Err(404)
    else
      var to := Filter(db.subscriptions, ToChannel(channelId));
      var join := (s: Subscription) => SubscriberRowsOf(db, channelId, s);
      var rows := FlatMap(to, join);
      assert WellFormed(db) ==> NoDuplicates(rows) by {
        if WellFormed(db) {
          DistinctByNoDuplicates(db.subscriptions, SubscriptionId);
          NoDuplicatesFilter(db.subscriptions, ToChannel(channelId));
          forall x, x', row | x in to && x' in to && row in join(x) && row in join(x') ensures x == x' {
            SameKeySameElement(db.subscriptions, SubscriptionEdge, x, x');
          }
          NoDuplicatesFlatMap(to, join);
        }
      }
      assert forall row :: row in rows <==>
        && row.subscriber in db.users
        && HasEdge(db.subscriptions, SubscriptionEdge, (row.subscriber.id, channelId))
        && row.subscribedToSubscriber == IsSubscribed(db.subscriptions, channelId, row.subscriber.id)
        && row.subscriberCount == SubscriberCount(db.subscriptions, row.subscriber.id) by {
        forall row ensures row in rows <==>
          && row.subscriber in db.users
          && HasEdge(db.subscriptions, SubscriptionEdge, (row.subscriber.id, channelId))
          && row.subscribedToSubscriber == IsSubscribed(db.subscriptions, channelId, row.subscriber.id)
          && row.subscriberCount == SubscriberCount(db.subscriptions, row.subscriber.id) {
          if HasEdge(db.subscriptions, SubscriptionEdge, (row.subscriber.id, channelId)) {
            var e :| e in db.subscriptions && SubscriptionEdge(e) == (row.subscriber.id, channelId);
            assert e in Filter(db.subscriptions, ToChannel(channelId));
          }
        }
      }
      Ok(rows)
  }

  /** When every subscriber of the channel is a stored user, the list has
      exactly `subscribersCount` rows. */
  lemma ChannelSubscribersCount(db: Db, channelId: Id)
    requires WellFormed(db) && ValidId(channelId)
    requires forall s :: s in db.subscriptions && s.channel == channelId ==>
      exists u :: u in db.users && u.id == s.subscriber
    ensures |ChannelSubscribers(db, channelId).value| == SubscriberCount(db.subscriptions, channelId)
  {
    var to := Filter(db.subscriptions, ToChannel(channelId));
    var f := (s: Subscription) => SubscriberRowsOf(db, channelId, s);
    forall s | s in to ensures |f(s)| == 1 {
      AtMostOneWithId(db.users, UserId, s.subscriber);
    }
    FlatMapSingles(to, f);
  }

  /** A row of a subscriber's channel list: the channel's public fields and
      the last of its videos in store order, absent when it has none. */
  datatype ChannelRow = ChannelRow(channel: User, latestVideo: Option<Video>)

  function ChannelRowOf(videos: seq<Video>, u: User): ChannelRow
  {
    ChannelRow(u, Last(Filter(videos, OwnedBy(u.id))))
  }

  /** The rows one subscription produces: one per user with the channel's id,
      so at most one when user ids are unique. */
  function ChannelRowsOf(db: Db, s: Subscription): (rows: seq<ChannelRow>)
    ensures forall row :: row in rows <==>
      row.channel in db.users && row.channel.id == s.channel
      && row == ChannelRowOf(db.videos, row.channel)
    ensures DistinctBy(db.users, UserId) ==> |rows| <= 1
  {
    var users := Filter(db.users, HasId(UserId, s.channel));
    var rows := Project(users, (u: User) => ChannelRowOf(db.videos, u));
    assert DistinctBy(db.users, UserId) ==> |rows| <= 1 by {
      if DistinctBy(db.users, UserId) {
        AtMostOneWithId(db.users, UserId, s.channel);
      }
    }
    assert forall row :: row in rows <==>
      row.channel in db.users && row.channel.id == s.channel
      && row == ChannelRowOf(db.videos, row.channel) by {
      forall row ensures row in rows <==>
        row.channel in db.users && row.channel.id == s.channel
        && row == ChannelRowOf(db.videos, row.channel) {
        if row in rows {
          var i :| 0 <= i < |rows| && rows[i] == row;
          assert users[i] in users;
          HasIdMeans(UserId, s.channel, users[i]);
        }
        if row.channel in db.users && row.channel.id == s.channel
          && row == ChannelRowOf(db.videos, row.channel) {
          HasIdMeans(UserId, s.channel, row.channel);
          assert row.channel in users;
          var i :| 0 <= i < |users| && users[i] == row.channel;
          assert rows[i] == row;
        }
      }
    }
    rows
  }

  /** getSubscribedChannels: 404 for a malformed subscriber id; otherwise one
      row per channel the user subscribes to that is a stored user, carrying
      that channel's most recently stored video when it has one; in a
      well-formed store no row appears twice. */
  function SubscribedChannels(db: Db, subscriberId: Id): (r: Result<seq<ChannelRow>>)
    ensures r.Err? <==> !ValidId(subscriberId)
    ensures r.Err? ==> r.status == 404
    ensures r.Ok? ==> forall row :: row in r.value <==>
      && row.channel in db.users
      && HasEdge(db.subscriptions, SubscriptionEdge, (subscriberId, row.channel.id))
      && row == ChannelRowOf(db.videos, row.channel)
    ensures r.Ok? && WellFormed(db) ==> NoDuplicates(r.value)
  {
    if !ValidId(subscriberId) then Err(404)
    else
      var mine := Filter(db.subscriptions, BySubscriber(subscriberId));
      var join := (s: Subscription) => ChannelRowsOf(db, s);
      var rows := FlatMap(mine, join);
      assert WellFormed(db) ==> NoDuplicates(rows) by {
        if WellFormed(db) {
          DistinctByNoDuplicates(db.subscriptions, SubscriptionId);
          NoDuplicatesFilter(db.subscriptions, BySubscriber(subscriberId));
          forall x, x', row | x in mine && x' in mine && row in join(x) && row in join(x') ensures x == x' {
            SameKeySameElement(db.subscriptions, SubscriptionEdge, x, x');
          }
          NoDuplicatesFlatMap(mine, join);
        }
      }
      assert forall row :: row in rows <==>
        && row.channel in db.users
        && HasEdge(db.subscriptions, SubscriptionEdge, (subscriberId, row.channel.id))
        && row == ChannelRowOf(db.videos, row.channel) by {
        forall row ensures row in rows <==>
          && row.channel in db.users
          && HasEdge(db.subscriptions, SubscriptionEdge, (subscriberId, row.channel.id))
          && row == ChannelRowOf(db.videos, row.channel) {
          if HasEdge(db.subscriptions, SubscriptionEdge, (subscriberId, row.channel.id)) {
            var e :| e in db.subscriptions && SubscriptionEdge(e) == (subscriberId, row.channel.id);
            assert e in Filter(db.subscriptions, BySubscriber(subscriberId));
          }
        }
      }
      Ok(rows)
  }

  /** `videos[i]` is the owner's, and no later video is. */
  predicate LastOwnedAt(videos: seq<Video>, owner: Id, i: nat)
  {
    && i < |videos| && videos[i].owner == owner
    && forall j :: i < j < |videos| ==> videos[j].owner != owner
  }

  /** The last element `$match` keeps is an owned element that no later
      element of the input follows. */
  lemma {:induction false} LastOwnedIsLatest(videos: seq<Video>, owner: Id)
    requires Filter(videos, OwnedBy(owner)) != []
    ensures exists i: nat :: LastOwnedAt(videos, owner, i) && videos[i] == Last(Filter(videos, OwnedBy(owner))).value
  {
    var rest := Filter(videos[1..], OwnedBy(owner));
    var head := if OwnedBy(owner)(videos[0]) then [videos[0]] else [];
    assert Filter(videos, OwnedBy(owner)) == head + rest;
    if rest != [] {
      assert Last(Filter(videos, OwnedBy(owner))) == Last(rest);
      LastOwnedIsLatest(videos[1..], owner);
      var i: nat :| LastOwnedAt(videos[1..], owner, i) && videos[1..][i] == Last(rest).value;
      forall j | i + 1 < j < |videos| ensures videos[j].owner != owner {
        assert videos[j] == videos[1..][j - 1];
      }
      assert LastOwnedAt(videos, owner, i + 1);
    } else {
      forall j | 0 < j < |videos| ensures videos[j].owner != owner {
        assert videos[j] in videos[1..];
        assert !OwnedBy(owner)(videos[j]);
      }
      assert Filter(videos, OwnedBy(owner)) == [videos[0]];
      assert LastOwnedAt(videos, owner, 0);
    }
  }

  /** `latestVideo` (`$last` of the channel's videos) is one of the channel's
      own videos, the last one stored: no later stored video is the
      channel's. It is absent exactly when the channel owns none. */
  lemma LatestVideoIsChannels(videos: seq<Video>, u: User)
    ensures var latest := ChannelRowOf(videos, u).latestVideo;
      && (latest.None? <==> forall v :: v in videos ==> v.owner != u.id)
      && (latest.Some? ==> latest.value in videos && latest.value.owner == u.id)
      && (latest.Some? ==> exists i: nat :: LastOwnedAt(videos, u.id, i) && videos[i] == latest.value)
  {
    var owned := Filter(videos, OwnedBy(u.id));
    if owned != [] {
      assert owned[|owned| - 1] in owned;
      LastOwnedIsLatest(videos, u.id);
    }
    forall v | v in videos && v.owner == u.id ensures v in owned {
      assert OwnedBy(u.id)(v);
    }
  }
}
