# Social-interaction core of a video platform backend, in Dafny

This project models the social-interaction layer of a video-sharing backend
written as Express controllers over MongoDB:

- likes on videos, comments and tweets;
- channel subscriptions;
- the video feed, detail page, publishing and owner-only changes;
- comments, tweets and playlists;
- the channel dashboard.

The database is an in-memory store. The class `EntityStore.Store` holds one
sequence per collection (users, videos, comments, tweets, likes,
subscriptions, playlists) and the next free identifier. `WellFormed` is the
store's invariant:

- every collection has unique `_id`s;
- there is at most one like per (user, target) pair;
- there is at most one subscription per (subscriber, channel) pair;
- no playlist lists a video twice.

Every handler that changes the store is a method on the store. Its contract:

- states the whole new snapshot in terms of the old one;
- keeps `WellFormed`;
- says which inputs fail, and with which HTTP status.

Every read view (aggregation pipeline) is a function of a `Db` snapshot.
Lemmas beside each operation state what its result means: membership, counts,
order, round trips, and "nothing else changes".

Modules:

- `Wrappers`: `Option` and `Result`. An error carries only its HTTP status.
- `Collections`: the list operators the pipelines use:
  - `$match` (`Filter`);
  - `$size` (`Count`);
  - `$sum` (`SumOf`);
  - `$first`/`$last`;
  - `$unwind` after `$lookup` (`FlatMap`);
  - `$sort` (`SortBy`);
  - `$addToSet` and `$pull`.
- `Text`: JavaScript `trim()` and the "blank field" and "missing field" tests.
- `EntityStore`: ids, entities, lookups, the store invariant and the `Store` class.
- `Edges`: the toggle state machine that likes and subscriptions share.
- `Likes`, `Subscriptions`, `Videos`, `Comments`, `Tweets`, `Playlists`, `Dashboard`: one module per controller.

Inputs from outside the program are parameters:

- the clock: `now`;
- the uploaded media after the blob-store upload: an `Option<Asset>`;
- Atlas full-text search: an opaque `matches` predicate;
- the signed-in user: `viewer`.

A MongoDB ObjectId is `Id.ObjectId(n)`, and any other string is
`Id.Malformed`. `isValidObjectId` is `ValidId`.

## Model

| member | source | states |
|---|---|---|
| EntityStore.IdCheck | src/controllers/subscription.controller.js:10-12 | the id check lets a request through exactly when the id is a valid ObjectId, and otherwise fails with the given status; this only spells out the one-line guard, and what it decides is shown by Likes.InvertedCheckRefusesStoredTargets, which sets it against the inverted check |
| EntityStore.FindByIdUnique | src/controllers/video.controller.js:272-276 | in a collection with unique `_id`s, `findById` returns the one document with that id |
| EntityStore.UpdateByIdEffect | src/controllers/video.controller.js:294-308 | `findByIdAndUpdate` changes only the document with that id, leaves every other id's document as it was, and keeps ids unique |
| EntityStore.DeleteByIdEffect | src/controllers/tweet.controller.js:170 | `findByIdAndDelete` leaves no document with that id, leaves every other id's document as it was, and keeps ids unique |
| Text.BlankIffAllSpace | src/controllers/video.controller.js:100-102 | a field counts as blank (`trim() === ""`) exactly when every character is JavaScript white space |
| Collections.AddToSetOnce | src/controllers/playlist.controller.js:191-200 | `$addToSet` keeps the list free of duplicates and leaves the element present exactly once, after the old members, which keep their order |
| Collections.PullRemoves | src/controllers/playlist.controller.js:233-242 | `$pull` keeps the list free of duplicates, removes the element and keeps every other member |
| Collections.PullClosesGap | src/controllers/playlist.controller.js:233-242 | `$pull` of a member joins the members before and after it, in order |
| Collections.PullUndoesAddToSet | src/controllers/playlist.controller.js:191-242 | pulling an element that was just added restores the original list |
| Edges.FindEdge | src/controllers/like.controller.js:17-20 | `findOne` on a (user, target) pair returns an edge of that pair, and returns none exactly when the pair is not connected |
| Edges.Toggle | src/controllers/like.controller.js:22-36 | one toggle step reports "connected" exactly when the pair was not connected before |
| Edges.AtMostOneEdge | src/controllers/like.controller.js:17-36 | in an edge collection with one edge per pair, each pair has 0 or 1 edges, and 1 exactly when connected |
| Edges.CountDeleteOne | src/controllers/subscription.controller.js:19-24 | deleting one edge by `_id` lowers every count that included it by one and leaves every other count alone |
| Edges.ToggleOff | src/controllers/like.controller.js:22-27 | toggling a connected pair reports `false` and removes its one edge and nothing else; the invariant holds afterwards |
| Edges.ToggleOn | src/controllers/like.controller.js:28-36 | toggling an unconnected pair reports `true` and appends exactly the new edge, which is then the pair's only edge; the invariant holds afterwards |
| Edges.ToggleTwice | src/controllers/subscription.controller.js:14-34 | two toggles report opposite flags and restore the set of connected pairs; starting from an unconnected pair they restore the very same edges |
| Edges.ToggleUnsent | src/controllers/like.controller.js:22-36 | the toggle as written, with the delete never sent, still reports `false` for a connected pair |
| Edges.UnsentToggleTwiceKeepsEdge | src/controllers/like.controller.js:22-36 | with the unsent delete, a second toggle reports "not liked" while the like created by the first toggle stays stored |
| Likes.LikesCount | src/controllers/video.controller.js:217-220 | `likesCount` is at most the number of likes, and is 0 exactly when no like targets the document |
| Likes.IsLikedIffEdge | src/controllers/comment.controller.js:43-58 | `isLiked` (`$in` of the viewer among the likers) holds exactly when the viewer's like on the target exists, and then the count is at least 1 |
| Likes.ToggleLikeViews | src/controllers/like.controller.js:17-36 | after a toggle, the reported flag is the viewer's new `isLiked`; the target's `likesCount` moves by one in that direction; no other target's count and no other user's flag changes |
| Likes.InvertedCheckRefusesStoredTargets | src/controllers/like.controller.js:13-15 | as written, the id check refuses every stored video, comment or tweet with 404, while the corrected check lets them through |
| Likes.ToggleLike | src/controllers/like.controller.js:10-98 | a malformed target id fails with 404 and leaves the store as it was; otherwise the like collection takes one toggle step, the answer is the new `isLiked`, and a new id is used only when a like is created |
| Likes.ToggleVideoLike | src/controllers/like.controller.js:10-38 | the toggle on a video target (`OnVideo`), with the same contract |
| Likes.ToggleCommentLike | src/controllers/like.controller.js:41-68 | the toggle on a comment target (`OnComment`), with the same contract |
| Likes.ToggleTweetLike | src/controllers/like.controller.js:71-98 | the toggle on a tweet target (`OnTweet`), with the same contract |
| Likes.LikedVideoRowsOf | src/controllers/like.controller.js:109-132 | a like yields exactly the rows that join it with its stored video and that video's stored owner; a like without a video yields none (`$unwind`); with unique video and user ids it yields at most one row |
| Likes.LikedVideos | src/controllers/like.controller.js:101-162 | the liked-video list holds exactly the viewer's likes joined with their video and owner, newest like first; in a well-formed store no row appears twice, so each such like gives exactly one row |
| Subscriptions.IsSubscribedIffEdge | src/controllers/subscription.controller.js:66-77 | the `$in` subscriber flag holds exactly when the subscription exists, and then the channel has at least one subscriber |
| Subscriptions.ToggleSubscriptionViews | src/controllers/subscription.controller.js:14-34 | after a toggle, the reported flag is the viewer's new `isSubscribed`; the channel's count moves by one in that direction; no other channel's count and no other user's flag changes |
| Subscriptions.ToggleSubscription | src/controllers/subscription.controller.js:7-35 | a malformed channel id fails with 404 and leaves the store as it was; otherwise the subscriptions take one toggle step and the answer is the new `subscribed` |
| Subscriptions.SubscriberRowsOf | src/controllers/subscription.controller.js:50-83 | a subscription yields one row for its stored subscriber, carrying that user's figures, and none when the user is gone; with unique user ids, at most one row |
| Subscriptions.ChannelSubscribers | src/controllers/subscription.controller.js:37-102 | a malformed id fails with 404; otherwise a row lists a stored user exactly when that user subscribes to the channel, with whether the channel subscribes back and the user's own subscriber count; in a well-formed store no row appears twice, so each such subscription gives exactly one row |
| Subscriptions.ChannelSubscribersCount | src/controllers/subscription.controller.js:45-83 | when every subscriber is a stored user, the list has exactly `subscribersCount` rows |
| Subscriptions.ChannelRowsOf | src/controllers/subscription.controller.js:117-144 | a subscription yields the row of its stored channel, and none when the channel user is gone; with unique user ids, at most one row |
| Subscriptions.SubscribedChannels | src/controllers/subscription.controller.js:104-169 | a malformed id fails with 404; otherwise a row lists a stored user exactly when the subscriber follows that channel, with the channel's latest video; in a well-formed store no row appears twice, so each such subscription gives exactly one row |
| Subscriptions.LatestVideoIsChannels | src/controllers/subscription.controller.js:132-137 | `latestVideo` is a video of the channel, absent exactly when the channel has none; when present it is the channel's last one in store order: no video stored after it belongs to the channel (via `Subscriptions.LastOwnedIsLatest`) |
| Subscriptions.LastOwnedIsLatest | src/controllers/subscription.controller.js:132-137 | `$last` over the channel's videos in store order picks one at a position after which no stored video is the channel's |
| Videos.FeedStages | src/controllers/video.controller.js:15-59 | a malformed owner filter fails with 400; otherwise the pipeline always has the published filter and ends with the requested sort; it has a search stage exactly when a query is given, and an owner stage exactly when an owner is given; `None` stands both for an absent and for an empty `userId`, which `if(userId)` treats alike |
| Videos.BuildFeedPipeline | src/controllers/video.controller.js:15-59 | pushing the stages one by one builds exactly that pipeline |
| Videos.ApplyStage | src/controllers/video.controller.js:17-59 | a `$match` stage keeps exactly the passing videos, and a `$sort` stage orders them by the key |
| Videos.RunStages | src/controllers/video.controller.js:61-80 | running the pipeline keeps exactly the videos every stage passes, ordered by a final sort |
| Videos.FeedRowsOf | src/controllers/video.controller.js:61-80 | a video yields one row per stored owner, and none without an owner (`$unwind`); with unique user ids, at most one row |
| Videos.FeedStagesMembers | src/controllers/video.controller.js:15-59 | the stages are exactly the optional search, the optional owner filter, the published filter and the sort |
| Videos.FeedKeeps | src/controllers/video.controller.js:17-59 | the feed keeps a video exactly when it is published, matches the query when one is given, and has the requested owner when one is given |
| Videos.FeedRules | src/controllers/video.controller.js:13-94 | a feed row is exactly a published, matching, owner-filtered stored video joined with its stored owner, and the rows are sorted as requested; in a well-formed store no row appears twice, so each such video gives exactly one row |
| Videos.PublishVideo | src/controllers/video.controller.js:97-152 | a blank title or description, or a missing upload, fails with 400 and changes nothing; otherwise one unpublished video with 0 views, owned by the viewer, is stored under a fresh id |
| Videos.NewVideoNotInFeed | src/controllers/video.controller.js:41-45 | an unpublished video never appears in the feed |
| Videos.VideoDetailView | src/controllers/video.controller.js:162-245 | the detail is absent exactly when no video has the id; otherwise it carries that video, its like count, the viewer's like flag, and an owner card when the owner is stored (with the owner's subscriber count and the viewer's subscription flag) |
| Videos.OwnerCardFacts | src/controllers/video.controller.js:177-223 | the owner card is present exactly when the owner is a stored user, and then carries that user's subscriber figures |
| Videos.AddViewEffect | src/controllers/video.controller.js:249-253 | `$inc` adds one view to the video with the id and changes nothing else |
| Videos.AddViewTwice | src/controllers/video.controller.js:249-253 | two fetches add two views |
| Videos.GetVideoById | src/controllers/video.controller.js:155-257 | a malformed id fails with 400 and changes nothing; otherwise the answer is the detail computed before the increment, and the video gets one more view |
| Videos.UpdateVideo | src/controllers/video.controller.js:260-320 | fails with 400 exactly when the title or description is missing, the id is malformed or unknown, the viewer is not the owner, or no thumbnail is uploaded; otherwise only that video's title, description and thumbnail change |
| Videos.UpdateVideoEffect | src/controllers/video.controller.js:294-308 | after the update the id finds the video with only those three fields changed, every other id finds what it found before, and the store stays well formed |
| Videos.DeleteVideo | src/controllers/video.controller.js:323-360 | a malformed id fails with 400, an unknown id with 404 and a non-owner with 400, each changing nothing; otherwise the video, the likes on it and its comments are removed |
| Videos.DeleteVideoCascade | src/controllers/video.controller.js:340-355 | after the delete no video has the id, no like targets it, no comment is under it, and every other video, like and comment remains |
| Videos.TogglePublishStatus | src/controllers/video.controller.js:363-397 | a malformed id fails with 400, an unknown id with 404 and a non-owner with 400; otherwise only that video's `isPublished` flips, and the answer is its new value |
| Videos.TogglePublishTwice | src/controllers/video.controller.js:380-395 | flipping twice restores the videos |
| Comments.CommentRowFacts | src/controllers/comment.controller.js:28-58 | a comment row carries the comment, its author when stored, its like count and the viewer's like flag |
| Comments.VideoComments | src/controllers/comment.controller.js:11-89 | fails with 404 exactly when no video has the id; otherwise there is one row per comment under the video, newest first |
| Comments.AddComment | src/controllers/comment.controller.js:92-123 | empty content fails with 400 and an unknown video with 404, each changing nothing; otherwise one comment by the viewer is stored under the video with a fresh id |
| Comments.AddedCommentListed | src/controllers/comment.controller.js:92-123 | a new comment appears in its video's comment list, which grows by one |
| Comments.UpdateComment | src/controllers/comment.controller.js:126-160 | fails with 400 exactly when the content is empty, the comment is unknown or the viewer is not the author; otherwise only that comment's content changes |
| Comments.UpdateCommentEffect | src/controllers/comment.controller.js:144-151 | after the edit the id finds the comment with only its content changed, and every other id finds what it found before |
| Comments.DeleteComment | src/controllers/comment.controller.js:163-188 | an unknown comment fails with 404 and a non-author with 400, each changing nothing; otherwise the comment and the viewer's own like on it are removed, and the answer is the comment id |
| Comments.DeleteCommentCascade | src/controllers/comment.controller.js:176-181 | after the delete the comment is gone, the viewer no longer likes it, every other like stays, and the comment's like count drops by one exactly when the viewer had liked it |
| Tweets.CreateTweet | src/controllers/tweet.controller.js:10-29 | empty content fails with 400 and changes nothing; otherwise one tweet by the viewer is stored with a fresh id |
| Tweets.TweetRowFacts | src/controllers/tweet.controller.js:44-91 | a tweet row carries the tweet's id and content, its author when stored, its like count and the viewer's like flag |
| Tweets.UserTweetsOrdered | src/controllers/tweet.controller.js:38-105 | the listed tweets are exactly the user's tweets, newest first |
| Tweets.UserTweets | src/controllers/tweet.controller.js:31-109 | a malformed user id fails with 400; otherwise there is one row per tweet of the user, in that order |
| Tweets.CreatedTweetListed | src/controllers/tweet.controller.js:10-109 | a new tweet appears in its author's list, which grows by one |
| Tweets.UpdateTweet | src/controllers/tweet.controller.js:112-150 | empty content, a malformed id or an unknown tweet fails with 400, and a non-author with 404, each changing nothing; otherwise only that tweet's content changes |
| Tweets.UpdateTweetEffect | src/controllers/tweet.controller.js:134-142 | after the edit the id finds the tweet with only its content changed, and every other id finds what it found before |
| Tweets.DeleteTweet | src/controllers/tweet.controller.js:153-178 | a malformed id or an unknown tweet fails with 400, and a non-author with 404, each changing nothing; otherwise exactly that tweet is removed and its id answered |
| Tweets.DeleteTweetEffect | src/controllers/tweet.controller.js:170 | after the delete the id finds nothing, every other tweet is still found, and the author's list loses exactly that tweet |
| Playlists.CreatePlaylist | src/controllers/playlist.controller.js:10-31 | a blank name or description fails with 400 and changes nothing; otherwise one empty playlist owned by the viewer is stored with a fresh id |
| Playlists.UserPlaylists | src/controllers/playlist.controller.js:34-88 | fails with 404 exactly when the user id is malformed or the user has no playlist; otherwise there is one summary per playlist of the user |
| Playlists.MemberIdsResolve | src/controllers/playlist.controller.js:47-54 | the ids of the looked-up videos are exactly the member ids that resolve to a stored video |
| Playlists.TotalsCountResolvedMembers | src/controllers/playlist.controller.js:56-63 | `totalVideos` counts the member ids that resolve to a stored video, and `totalViews` is the sum over all stored videos of each one's views when the playlist lists it and 0 otherwise |
| Playlists.PlaylistById | src/controllers/playlist.controller.js:91-166 | a malformed id fails with 400; otherwise the result holds the playlist with that id exactly when at least one of its videos is published |
| Playlists.PlaylistsStayWellFormed | src/controllers/playlist.controller.js:191-200 | a change to one playlist that keeps its id and keeps lists free of duplicates keeps the store well formed |
| Playlists.MembershipCheck | src/controllers/playlist.controller.js:179-189 | an unknown playlist or video fails with 400, a viewer who does not own the playlist with 401, and the request passes exactly when both are found and the viewer owns the playlist (the playlist's owner, where the code names the video's; see "## Left out") |
| Playlists.MembershipCheckAsWritten | src/controllers/playlist.controller.js:187-189 | as written, every request that finds both the playlist and the video is refused with 401 |
| Playlists.AsWrittenGuardRefusesOwner | src/controllers/playlist.controller.js:187-189 | the owner of a stored playlist adding a stored video is refused as written and let through by the corrected guard |
| Playlists.AddVideoToPlaylist | src/controllers/playlist.controller.js:169-208 | a failed guard changes nothing; otherwise the video id is added to that playlist alone, and the answer is the updated playlist |
| Playlists.RemoveVideoFromPlaylist | src/controllers/playlist.controller.js:211-249 | a failed guard changes nothing; otherwise the video id is pulled from that playlist alone, and the answer is the updated playlist |
| Playlists.AddMemberSetSemantics | src/controllers/playlist.controller.js:191-196 | after an add the video is a member exactly once and the earlier members keep their order; adding a member again changes nothing; removing right after an add restores the playlist |
| Playlists.RemoveMemberSetSemantics | src/controllers/playlist.controller.js:233-238 | after a remove the video is absent and every other member remains, in order; removing a non-member changes nothing; no other field changes |
| Playlists.DeletePlaylist | src/controllers/playlist.controller.js:252-278 | a malformed id fails with 404, an unknown id with 400 and a non-owner with status 200, each changing nothing; otherwise exactly that playlist is removed |
| Playlists.InvertedCheckRefusesStoredPlaylists | src/controllers/playlist.controller.js:255-257 | as written, the id check refuses every stored playlist with 404, while the corrected check lets it through |
| Playlists.UpdatePlaylist | src/controllers/playlist.controller.js:281-324 | a blank field fails with 400, a malformed id with 404, an unknown id with 400 and a non-owner with 404, each changing nothing; otherwise only that playlist's name and description change |
| Playlists.UpdatePlaylistEffect | src/controllers/playlist.controller.js:303-316 | after the update the id finds the playlist with the same owner and members and the new name and description, and every other id finds what it found before |
| Dashboard.SubscriberGroup | src/controllers/dashboard.controller.js:18-32 | the subscriber `$group` yields no document exactly when the channel has no subscriber, and otherwise the subscriber count |
| Dashboard.VideoGroup | src/controllers/dashboard.controller.js:34-71 | the video `$group` yields no document exactly when the channel has no video, and otherwise counts the channel's videos |
| Dashboard.ChannelStatsOf | src/controllers/dashboard.controller.js:11-84 | without a signed-in user the result is 404; otherwise the totals are the channel's subscriber count, video count, summed views and summed per-video likes, each 0 when there is nothing to count |
| Dashboard.SumOfLikesCountsLikes | src/controllers/dashboard.controller.js:39-61 | over videos with distinct ids, summing the per-video like counts counts each like on those videos once |
| Dashboard.TotalLikesCountsChannelLikes | src/controllers/dashboard.controller.js:39-75 | in a well-formed store, `totalLikes` is the number of likes on videos the channel owns |

Definitions without a contract of their own, each characterised by the member named:

- `Likes.IsLiked` (video.controller.js:224-230, the `$in` of the viewer among the likers): Likes.IsLikedIffEdge.
- `Subscriptions.IsSubscribed` (subscription.controller.js:66-72): Subscriptions.IsSubscribedIffEdge.
- `Subscriptions.SubscriberCount` (video.controller.js:192-195, the `$size` of the subscriber lookup): Subscriptions.ToggleSubscriptionViews and Videos.OwnerCardFacts.
- `Videos.Feed` (video.controller.js:61-80, the owner lookup after the stages): Videos.FeedRules and Videos.NewVideoNotInFeed.
- `Videos.FeedSort` (video.controller.js:47-59): Videos.FeedStages and Videos.FeedKeeps.
- `Videos.AddView` (video.controller.js:249-253): Videos.AddViewEffect and Videos.AddViewTwice.
- `Playlists.SummaryOf` (playlist.controller.js:54-63): Playlists.TotalsCountResolvedMembers and Playlists.UserPlaylists.
- `Playlists.DetailOf` (playlist.controller.js:123-136): Playlists.PlaylistById.
- `Wrappers.Option.GetOr` (dashboard.controller.js:74-77, the `|| 0` fallbacks): Dashboard.ChannelStatsOf.

## Left out

- HTTP plumbing is not modelled: request parsing, `asyncHandler`, the response envelope and messages. A failure keeps only its status code.
- Several handlers throw 500 when a store call returns nothing. Store calls in the model cannot fail, so these branches do not occur.
- Blob-store uploads and deletions are not modelled (`src/utils/cloudnary.js` is not part of this model). An upload is an `Option<Asset>` parameter (`None` = no file or a failed upload). Deleting the old media on update and delete is foreign I/O and is dropped.
- Atlas `$search` is the opaque predicate `matches(video, query)`.
- Comments.VideoComments: returns the whole list, not one page. The `aggregatePaginate` window is not modelled.
- Videos.FeedRules: describes the whole feed, not one page. Only the sort and filters are modelled; `parseInt(page, 1)` yields NaN, so the page number has no defined effect.
- Playlists.MembershipCheck: the owner test at playlist.controller.js:187 and :229 names `video.owner`, so fixing only its `toString` typo would let through the viewer who owns the video. The model checks the owner of the playlist instead, because updatePlaylist and deletePlaylist let only the playlist's owner change it. A viewer who owns the video but not the playlist is refused here, and one who owns the playlist but not the video passes.
- Videos.FieldKey: only the numeric fields `createdAt`, `views` and `duration` are sort keys. Any other `sortBy` (a string field such as `title`) sorts on a constant key.
- Like and subscription toggles are sequential. The race between the un-awaited `Like.create` and a concurrent request is not modelled.
- `getChannelVideos` (dashboard.controller.js:87-126) is not modelled. Its `$match` holds `$lookup` options and no owner filter, so it has no coherent behaviour.
- The ObjectId string format is abstract: an id is either a valid ObjectId or malformed.
- A body field that is absent altogether (`undefined?.trim()`) is not modelled; fields are strings. `Blank` is `trim() === ""` and `Missing` is the empty string (`!content`).
- Output projections are not modelled: rows carry whole entities, and projection-only typos such as `tital` do not matter.
- Views, likes and totals are unbounded naturals. JavaScript numbers lose precision only beyond 2^53, which is not modelled.

Readings of the code as its authors evidently meant it. In each case the code as written would crash or do nothing useful:

- The misspelled names are read as intended:
  - `" likes"` as the `likes` collection;
  - `likeBy` as `likedBy`;
  - `than` as `then`;
  - `$frist` as `$first`;
  - `likeas`/`$likes` as one array;
  - `createAt` as `createdAt`.
- `.tostring()` is read as `.toString()`.
- `new mongoose.Types.objectId` (dashboard.controller.js:37), `OBjectId` (subscription.controller.js:114), the bare `ObjectId(userId)` of the feed's owner filter (video.controller.js:36) and the bare `ObjectId(videoId)` (video.controller.js:165) are read as `new mongoose.Types.ObjectId`.
- The owner card's flag named `isPublished` (video.controller.js:196) is read as the viewer's subscription flag, which is what it computes.
- Missing `mongoose` imports are assumed present.
- `User.create` in publishVideo (video.controller.js:126) is read as `Video.create`.
- The `$in` of a string channel id against ObjectIds is read as an id comparison.
- `playList?.length()` (playlist.controller.js:80) would throw a TypeError. It is read as "no playlists fails with 404".
- The add/remove playlist guard at playlist.controller.js:172-174 builds an `ApiError` without throwing it. It is therefore not a guard, and the model has none.
- The `$pull` of the video document at playlist.controller.js:236 is read as the pull of its id.
- The un-awaited `Video.findById` check in publishVideo never fires, so it is omitted.
- updateVideo takes the new thumbnail from `req.files?.path` (video.controller.js:283). `req.files` holds one array per upload field, as publishVideo's `req.files?.videoFile[0]?.path` (video.controller.js:103-104) shows, so it has no `path` of its own. As written, every update that passes the owner check would be refused with 400 "thumbnail is required" (video.controller.js:285-287). The line is read as the path of the single uploaded thumbnail (`req.file?.path`), which is the `thumbnail: Option<Asset>` parameter of `Videos.UpdateVideo`. The upload middleware is not part of this model.
- A malformed id given to a handler that does not check it (comments, the playlist lookups) makes Mongoose raise a cast error, which the handler answers with 500. The model instead answers it as "not found", with that handler's not-found status.
- The owner test at playlist.controller.js:299 compares a string with the `toString` method. As written it can never be reached for a valid id, because the inverted check at 289 refuses every valid id first. It is modelled as the intended owner test, failing with 404.

Behaviour that follows the code where the design intent differs:

- The like and subscription toggles (like.controller.js:17-36 and its comment and tweet counterparts, subscription.controller.js:14-34) never check that the video, comment, tweet or channel exists. A well-formed id of a missing target is toggled like any other, where the design would answer not found.
- getVideoById with a valid id that no video has succeeds with no detail, because the aggregate's empty array is truthy.
- getPlaylistById keeps all member videos, published or not, once one of them is published.
- deleteComment removes only the viewer's own like on the comment (`likedBy: req.user`). Other users' likes remain.
- deletVideo does not remove likes on the deleted comments.
- deleteTweet removes no likes.
- deletePlaylist refuses a non-owner with status 200, as written.
- `$lookup` returns videos in store order.

## Findings

| source | as written | input that shows it | evidently intended | confidence | as-written member | corrected member |
|---|---|---|---|---|---|---|
| src/controllers/like.controller.js:13-15 | `if (isValidObjectId(id)) throw 404` (also at :44 and :74) | any stored video, comment or tweet id, e.g. `ObjectId(0)` for a stored video: every valid id is refused | refuse only malformed ids | high, not executed | Likes.InvertedCheckRefusesStoredTargets | EntityStore.IdCheck |
| src/controllers/playlist.controller.js:255-257 | the same inverted check in deletePlaylist (and updatePlaylist at :289) | the id of any stored playlist is refused with 404 | refuse only malformed ids | high, not executed | Playlists.InvertedCheckRefusesStoredPlaylists | Playlists.DeletePlaylist |
| src/controllers/like.controller.js:23 | `Like.findByIdAndDelete(...)` without `await` or `exec`, so the query is never sent (also at :54 and :84) | a user likes an unliked video, then toggles again: the answer is `isLiked: false`, but the like stays stored | delete the like | high, not executed | Edges.UnsentToggleTwiceKeepsEdge | Edges.ToggleTwice |
| src/controllers/playlist.controller.js:187-189 | `video.owner?.toString !== req.user?._id.toString()` compares the `toString` method with a string (also at :229) | the owner of a stored playlist adds a stored video: refused with 401 | refuse only viewers who do not own the playlist; the corrected guard tests the playlist's owner where the code names `video.owner`, the owner every other playlist change checks | high, not executed | Playlists.AsWrittenGuardRefusesOwner | Playlists.MembershipCheck |
