# A verified model of the video-platform backend

This project models the request handlers of an Express/Mongoose video
platform, together with its user schema and its blob-store helpers. The
platform has users, videos, comments, likes, channel subscriptions, tweets
and playlists, and a dashboard that totals a channel's figures.

The database is an in-memory store: the class `Store.Db` holds one sequence
per collection and an id allocator for new ObjectIds. Its `Valid()`
invariant says:

- ids are distinct, and each is below the allocator;
- every user is well-formed, as the user schema demands;
- userName and email are unique;
- there is at most one like per (target, user);
- there is at most one subscription per (subscriber, channel).

A playlist's video list is not kept free of duplicates: the add handler's
membership test can miss an id that is already there (see below).

Handlers that write to the store are methods. Each states its whole new state
in terms of the old one, using the specification functions `UpdateFirst`
(`findByIdAndUpdate`, `findById` + `save`), `DeleteFirst` (`deleteOne`,
`findOneAndDelete`), `Toggle` (find, then create or delete), and appending at
the end (`create`). Handlers that only read are functions. Each handler
answers `Ok(value)` or `Err(status)`. The status is what reaches the client:

- `ApiError(code)` gives `code`;
- any other exception gives 500;
- a `try`/`catch` that rewrites the status is modelled as it rewrites it.

The code is modelled as written. In particular:

- `deletePlaylist` reads `playlist` before declaring it, so it never deletes.
- Several edit and delete handlers have no ownership check.
- `getChannelVideos` lists every owner's videos.
- The three video listings answer 500 when no `sortBy` is given, because
  their `$sort` stage is then an empty document.
- `publishAVideo` answers 500 when the upload carries only one of its two
  file fields, because it indexes the missing field.
- `addVideoToPlaylist` and `removeVideoFromPlaylist` test membership with
  `includes` of the raw `videoId` text. That text equals a stored ObjectId
  only in its lower-case 24-digit hex form. Any other form that
  `isValidObjectId` accepts (upper-case hex, a 12-character string) is
  never found. So such an id is pushed again when it is already in the
  list, and it is refused with 400 on removal. The flag `canonical` says
  which form the client sent.
- `generateAccessAndRefreshTokens` writes to a field the schema spells
  differently (`refereshToken`), so it stores nothing.

Modules:

- `Base`: options, results, statuses, blank/falsy tests, and the schema's
  `trim`/`lowercase` setters with their algebra.
- `Query`: the Mongo operations on sequences (filter, first match, count, sum,
  skip/limit window, sort, `$addToSet`, `$pull`, update and delete of the first
  match).
- `ToggleRelation`: the find-then-create-or-delete of a keyed relation.
- `UserModel`: the user schema.
- `Records`: the other documents.
- `Store`: the store.
- `Cloudinary`: the blob-store helpers.
- One module per controller.

The outside world is passed in as parameters:

- whether an id parses (`IdArg`);
- whether the text of a playlist handler's `videoId` is the canonical lower-case hex form of the id (`canonical`);
- the result of a `$regex` match (`matches`);
- the order of a client-named sort field (`rank`);
- the blob store's answers to uploads (`Option<Asset>`) and to deletions (`destroy`);
- the password comparison (`passwordOk`) and token signing (`access`, `refresh`);
- the current time (`now`);
- the caller's id, which the authentication middleware supplies.

## Model

| member | source | states |
|---|---|---|
| Base.TrimStart | backend/src/controllers/user.controller.js:44-46 | the front half of `trim()`: a suffix of the input that does not start with white space, all of whose dropped characters are white space |
| Base.TrimEnd | backend/src/controllers/user.controller.js:44-46 | the back half of `trim()`: a prefix of the input that does not end with white space, all of whose dropped characters are white space |
| Base.TrimIsPaddedSlice | backend/src/models/user.model.js:23-28 | `trim()` leaves the slice of the input with only white space around it, and that slice neither starts nor ends with white space |
| Base.Lower | backend/src/controllers/user.controller.js:90 | `toLowerCase` keeps the length |
| Base.LowerMapsLetters | backend/src/models/user.model.js:6-21 | `toLowerCase` (the schema's `lowercase`) leaves no upper-case ASCII letter, keeps every other character in place, and maps white space to white space only |
| Base.NormalizeForm | backend/src/models/user.model.js:6-21 | the stored form of userName and email has no white space at either end and no upper-case letter, and is no longer than the input |
| Base.BlankIffAllSpace | backend/src/controllers/user.controller.js:44-46 | `field?.trim() === ""` holds exactly when the field is present and made of white space only |
| Base.FalsyAndBlank | backend/src/controllers/comment.controller.js:110 | the `!field` test and the `trim() === ""` test differ: "" passes both, an absent field is falsy but not blank, and " " is blank but not falsy |
| Base.TrimEmptyIffAllSpace | backend/src/controllers/user.controller.js:44-46 | `s.trim() === ""` holds exactly when every character of `s` is white space |
| Base.TrimLowerCommute | backend/src/models/user.model.js:6-21 | trimming and lower-casing commute, so the order in which the two setters apply does not matter |
| Base.NormalizeIdempotent | backend/src/models/user.model.js:6-21 | the stored form of userName and email is a fixed point: applying the setters again changes nothing |
| Base.TrimIdempotent | backend/src/models/user.model.js:23-28 | a trimmed fullName stays the same when trimmed again |
| Query.Filter | backend/src/controllers/video.controller.js:36-42 | `$match` keeps only stored records that satisfy the filter, keeps every such record, and is no longer than the collection |
| Query.FirstIndex | backend/src/controllers/playlist.controller.js:149 | the position of the earliest record that matches: it matches and none before it does; None exactly when nothing matches |
| Query.First | backend/src/controllers/playlist.controller.js:149 | `findOne`/`findById` finds nothing exactly when no record matches; otherwise it finds a stored matching record |
| Query.Window | backend/src/controllers/comment.controller.js:65-70 | `$skip`/`$limit` gives at most `take` records, namely the records at positions `skip`, `skip + 1`, ... of the input, in order |
| Query.WindowHolds | backend/src/controllers/comment.controller.js:65-70 | record `k` is on the page that starts at the largest multiple of the page size at or below `k` |
| Query.WindowsTile | backend/src/controllers/comment.controller.js:65-70 | consecutive pages tile the listing: each page starts where the previous one stops |
| Query.SortBy | backend/src/controllers/video.controller.js:43-47 | `$sort` on one key returns a permutation of its input, ordered by that key in the requested direction |
| Query.AddToSetProperties | backend/src/controllers/video.controller.js:316-327 | after `$addToSet` the id is present; a second `$addToSet` changes nothing; duplicate-freedom is kept; nothing else enters |
| Query.AddToSetOneCopy | backend/src/controllers/video.controller.js:316-327 | a history holding at most one copy of the id holds exactly one copy after `$addToSet` |
| Query.RemoveAll | backend/src/controllers/playlist.controller.js:237-249 | after `$pull` the id is absent, every other element of the list is still there, and nothing new is added |
| Query.RemoveAllNoDuplicates | backend/src/controllers/playlist.controller.js:237-249 | `$pull` keeps a duplicate-free list duplicate-free |
| Query.UpdateFirst | backend/src/controllers/video.controller.js:384-397 | `findByIdAndUpdate` changes the earliest matching record by the update, changes no other record, and keeps the length |
| Query.UpdateFirstIdempotent | backend/src/controllers/comment.controller.js:166-176 | applying an idempotent update that keeps the key a second time changes nothing |
| Query.UpdateFirstInvolution | backend/src/controllers/video.controller.js:486-487 | applying an involutive update that keeps the key twice restores the collection |
| Query.DeleteFirst | backend/src/controllers/video.controller.js:456 | the definition of `deleteOne`: the collection with the earliest matching record cut out, stated as that cut; DeleteFirstByKey carries the property the handlers rely on |
| Query.DeleteFirstByKey | backend/src/controllers/tweet.controller.js:174-179 | in a collection with unique ids, deleting by id leaves no record with that id, and every record with another id stays, in order |
| ToggleRelation.ToggleEffect | backend/src/controllers/like.controller.js:19-56 | a toggle keeps the records of other keys as they were, in order; the key's records go from none to one, or lose one |
| ToggleRelation.ToggleTwice | backend/src/controllers/like.controller.js:19-56 | with at most one record per key, two toggles keep the records of other keys where they were, and give back the number of records with the key |
| ToggleRelation.ToggleThrice | backend/src/controllers/like.controller.js:19-56 | three toggles have the effect of one on the other keys and on the number of records with the key, and give the very same collection when the key was present |
| ToggleRelation.ToggleKeepsUnique | backend/src/controllers/like.controller.js:19-56 | at most one record per key before a toggle implies at most one record per key after it |
| ToggleRelation.ToggleIsolated | backend/src/controllers/like.controller.js:19-56 | a toggle leaves the records of every other key as they were, in order |
| UserModel.AddUserKeepsOk | backend/src/models/user.model.js:3-60 | appending a well-formed user with the next id and an unused userName and email keeps the user collection's invariants (distinct ids, the two unique indexes, well-formed users) |
| UserModel.UpdateUserKeepsOk | backend/src/models/user.model.js:3-60 | an update that leaves the constrained fields (id, userName, email, fullName, avatar, password) alone keeps the user collection's invariants |
| UserModel.CardById | backend/src/controllers/video.controller.js:235-279 | the owner `$lookup` + `$first` finds a card exactly when some user has the id, and the card is the projection of such a user |
| UserModel.ContactById | backend/src/controllers/subscription.controller.js:103-135 | the subscriber/channel `$lookup` + `$first` finds a card exactly when some user has the id, and the card is the projection of such a user |
| UserModel.LookupsFindUser | backend/src/controllers/subscription.controller.js:103-135 | when user ids are distinct, every lookup by a stored user's id returns that user's own projection |
| Records.AppendPlaylistKeepsOk | backend/src/controllers/playlist.controller.js:34-40 | a new playlist with the next id keeps the playlist collection's invariants |
| Records.VideoById | backend/src/controllers/playlist.controller.js:161-165 | `Video.findById` finds nothing exactly when no video has the id; otherwise it finds a stored video with that id |
| Store.Db.NewId | backend/src/controllers/subscription.controller.js:37-41 | a created document receives an id that no stored document has, and the allocator moves past it |
| Store.Db.AddVideo | backend/src/controllers/video.controller.js:188-196 | `Video.create` puts the video, under the next id, at the end of the collection and keeps the store invariant |
| Store.Db.AddComment | backend/src/controllers/comment.controller.js:117-121 | `Comment.create` appends the comment under the next id and keeps the store invariant |
| Store.Db.AddTweet | backend/src/controllers/tweet.controller.js:22-25 | `Tweet.create` appends the tweet under the next id and keeps the store invariant |
| Store.Db.AddPlaylist | backend/src/controllers/playlist.controller.js:34-40 | `Playlist.create` appends a playlist under the next id and keeps the store invariant |
| Store.Db.AddUser | backend/src/controllers/user.controller.js:84-91 | `User.create` appends a user that fits the collection and keeps the store invariant |
| Store.Db.UpdateVideo | backend/src/controllers/video.controller.js:302-313 | an update of one video that keeps its id changes only that video and keeps the store invariant |
| Store.Db.UpdateUser | backend/src/controllers/video.controller.js:316-327 | an update of one user that keeps its identity changes only that user and keeps the store invariant |
| Cloudinary.UploadOnCloudinary | backend/src/utils/cloudinary.js:12-38 | a falsy path gives null without an upload; otherwise the result is the store's answer, null when the upload failed |
| Cloudinary.Find | backend/src/utils/cloudinary.js:43 | `indexOf` returns the earliest occurrence of the pattern, and nothing exactly when the pattern does not occur |
| Cloudinary.Split | backend/src/utils/cloudinary.js:43 | `split` always gives at least one piece |
| Cloudinary.SplitJoin | backend/src/utils/cloudinary.js:43-52 | joining the pieces of a split with the same separator gives back the string |
| Cloudinary.SplitOne | backend/src/utils/cloudinary.js:43-46 | a split gives exactly one piece exactly when the separator does not occur |
| Cloudinary.SplitTwo | backend/src/utils/cloudinary.js:43-46 | a split gives exactly two pieces when the separator occurs once, and the second piece is what follows that occurrence |
| Cloudinary.FindChar | backend/src/utils/cloudinary.js:48 | the search for a one-character separator finds the first position of that character |
| Cloudinary.DropFirstSegment | backend/src/utils/cloudinary.js:48 | `split('/').slice(1).join('/')` is everything after the first '/', or "" when there is none |
| Cloudinary.LastIndexOf | backend/src/utils/cloudinary.js:52 | the last position of a character, or nothing when the character does not occur |
| Cloudinary.StripExtensionIsReplace | backend/src/utils/cloudinary.js:52 | `replace(/\.[^/.]+$/, '')` removes the one match of the pattern when there is a match and otherwise keeps the string |
| Cloudinary.StripExtensionOf | backend/src/utils/cloudinary.js:52 | `stem.ext` loses exactly `.ext` when ext is non-empty and free of '/' and '.' |
| Cloudinary.ExtractNeedsOneMarker | backend/src/utils/cloudinary.js:43-57 | a public id comes back exactly when "/upload/" occurs and does not occur again after its first occurrence; otherwise null |
| Cloudinary.AfterMarker | backend/src/utils/cloudinary.js:43-46 | with no second marker, the split on "/upload/" has two pieces, and the second piece is what follows the marker |
| Cloudinary.ExtractRoundTrip | backend/src/utils/cloudinary.js:41-56 | the id extracted from `prefix/upload/version/id.ext` is `id` |
| Cloudinary.ExtractBareVersion | backend/src/utils/cloudinary.js:48-52 | when nothing follows the version segment, the extracted id is "" |
| Cloudinary.DeleteFromCloudinary | backend/src/utils/cloudinary.js:65-94 | false for a falsy url; otherwise true exactly when the destroy call for the extracted id answers "ok" |
| VideoController.SortOf | backend/src/controllers/video.controller.js:29-33 | a falsy sortBy gives no sort key; otherwise the key is sortBy, with direction -1 exactly when sortType is "desc" and 1 for any other value |
| VideoController.Listing | backend/src/controllers/video.controller.js:36-47 | `$match` then `$sort` is a permutation of the matched videos, ordered by the sort key in its direction |
| VideoController.ListingSound | backend/src/controllers/video.controller.js:36-60 | every video on any page is stored, and the filter keeps it |
| VideoController.Paged | backend/src/controllers/video.controller.js:29-60 | 500, and only then, when sortBy is falsy, because the empty `$sort` document is refused; otherwise a page of at most the page size, every entry a stored video the filter keeps |
| VideoController.GetAllVideos | backend/src/controllers/video.controller.js:14-79 | 500 exactly when sortBy is falsy; otherwise each listed video is stored, published and matches the search, and a page holds at most the page size |
| VideoController.GetAllVideosCovers | backend/src/controllers/video.controller.js:29-60 | without a sortBy every page is 500; with one and a fixed page size, every published video that matches the search is on some page |
| VideoController.PageOf | backend/src/controllers/video.controller.js:50-60 | entry `k` of a listing is on a page numbered 1 or more |
| VideoController.GetMyAllVideos | backend/src/controllers/video.controller.js:85-154 | an invalid user id, and only an invalid id, gives 400 before anything is read; a valid id with a falsy sortBy, and only that, gives 500; otherwise the listed videos are stored, owned by that user, published and matching the search |
| VideoController.DetailsOf | backend/src/controllers/video.controller.js:228-296 | nothing when no video has the id; otherwise the first such video with views + 1, the owner's card, the number of likes on the video, and exactly the comments on the video, in collection order, together with their count |
| VideoController.GetVideoById | backend/src/controllers/video.controller.js:220-341 | 400 for an invalid id with no change; otherwise the details are returned, the first video with the id gets views + 1 stored, and the id is added to the caller's watch history even when no video matched |
| VideoController.ViewsWrittenBack | backend/src/controllers/video.controller.js:285-313 | the views returned to the client are the views that are stored afterwards |
| VideoController.WatchIdempotent | backend/src/controllers/video.controller.js:316-327 | repeated fetches leave the users as after the first fetch; the id is in the history, exactly once when it was there at most once before |
| VideoController.UpdateVideo | backend/src/controllers/video.controller.js:347-417 | every refusal (invalid id, blank title or description, no thumbnail, failed upload, failed deletion of the old thumbnail, a missing video) is 400 and changes nothing; otherwise only the thumbnail, title and description of that video change; no ownership check |
| VideoController.DeleteVideo | backend/src/controllers/video.controller.js:423-467 | the video is removed exactly when the id is valid, the video exists and both blob deletions succeed; otherwise 400 and no change |
| VideoController.TogglePublishStatus | backend/src/controllers/video.controller.js:473-500 | 400 with no change for an invalid or missing video; otherwise only `isPublished` of that video is negated, and the saved video is returned |
| VideoController.TogglePublishTwice | backend/src/controllers/video.controller.js:476-487 | two toggles restore the collection; a toggle changes exactly the publish flag |
| VideoController.PublishAVideo | backend/src/controllers/video.controller.js:161-214 | 400 with no change for a blank title or description; 500 with no change, and only then, when `req.files` is there but its `videoFile` or `thumbnail` field is missing; 400 when there is no `req.files`, when both paths are falsy, or when neither upload succeeded; otherwise one published, unviewed video owned by the caller is appended, with the urls of what was uploaded |
| LikeController.ToggleLike | backend/src/controllers/like.controller.js:19-71 | the like collection becomes the toggle of (target, caller); the answer is the created like, or empty after a delete; the invariant is kept |
| LikeController.ToggleVideoLike | backend/src/controllers/like.controller.js:12-72 | 400 with no change for an invalid id; otherwise a toggle of the caller's like of that video |
| LikeController.ToggleCommentLike | backend/src/controllers/like.controller.js:79-143 | 400 with no change for an invalid id; otherwise a toggle of the caller's like of that comment |
| LikeController.ToggleTweetLike | backend/src/controllers/like.controller.js:149-214 | 400 with no change for an invalid id; otherwise a toggle of the caller's like of that tweet |
| LikeController.ToggleLikeEffect | backend/src/controllers/like.controller.js:19-56 | with at most one like per (target, user): a toggle creates exactly one like when there was none; otherwise it deletes the one there was and leaves none; at most one per pair remains |
| LikeController.ToggleLikeTwice | backend/src/controllers/like.controller.js:19-71 | toggling twice from "not liked" restores the collection exactly; from any state, every other like stays in place and the liked status is as before |
| LikeController.ToggleLikeThrice | backend/src/controllers/like.controller.js:19-71 | three toggles equal one, and give the very same collection when the target was liked |
| LikeController.ToggleLikeIsolated | backend/src/controllers/like.controller.js:86-141 | a toggle never changes the likes of another target, of another kind or of another user |
| LikeController.RowsOfLike | backend/src/controllers/like.controller.js:232-270 | the rows a like contributes after `$lookup` + `$unwind` are that like with each stored video it references, and with every such video |
| LikeController.UnwoundSound | backend/src/controllers/like.controller.js:232-270 | every unwound row is a stored like, with a stored video that it likes |
| LikeController.UnwoundHas | backend/src/controllers/like.controller.js:232-270 | a like of an existing video yields a row with that video |
| LikeController.SortedRowsSound | backend/src/controllers/like.controller.js:224-276 | every row in the answer is a like by the caller of an existing video, with that video |
| LikeController.SortedRowsComplete | backend/src/controllers/like.controller.js:224-276 | every like by the caller of an existing video is in the answer, with that video |
| LikeController.Projected | backend/src/controllers/like.controller.js:282-291 | the `$project` keeps one entry per row, in order |
| LikeController.ProjectedSound | backend/src/controllers/like.controller.js:224-291 | each entry is a like by the caller on a video that exists; comment and tweet likes never appear |
| LikeController.ProjectedComplete | backend/src/controllers/like.controller.js:224-291 | each like by the caller of an existing video has an entry |
| LikeController.GetLikedVideos | backend/src/controllers/like.controller.js:220-306 | exactly the caller's likes of existing videos are listed, and `TotalVideoLike` is the length of the list |
| LikeController.GetLikedVideosNewestFirst | backend/src/controllers/like.controller.js:274-276 | the answer is ordered by the likes' `createdAt`, newest first |
| SubscriptionController.ToggleSubscription | backend/src/controllers/subscription.controller.js:13-80 | 400 with no change for an invalid channel id; otherwise the subscription (caller, channel) is created when absent and deleted when present, even when caller and channel are the same user |
| SubscriptionController.ToggleSubscriptionEffect | backend/src/controllers/subscription.controller.js:21-59 | from "not subscribed" exactly one subscription is appended; the subscribed status flips; at most one subscription per pair is kept |
| SubscriptionController.ToggleSubscriptionTwice | backend/src/controllers/subscription.controller.js:21-59 | two toggles from "not subscribed" restore the collection; in every case the other subscriptions stay and the status is as before |
| SubscriptionController.ToggleSubscriptionIsolated | backend/src/controllers/subscription.controller.js:21-59 | a toggle leaves the subscriptions of every other pair unchanged |
| SubscriptionController.GetUserChannelSubscribers | backend/src/controllers/subscription.controller.js:88-165 | 400 for an invalid id; 404 exactly when the channel has no subscription; otherwise one entry per subscription to the channel, in order, each with the subscriber's contact card |
| SubscriptionController.GetSubscribedChannels | backend/src/controllers/subscription.controller.js:172-240 | 400 for an invalid id; 404 exactly when the user subscribes to nothing; otherwise one entry per subscription of the user, each with the channel's contact card |
| SubscriptionController.SubscribersComplete | backend/src/controllers/subscription.controller.js:96-149 | every subscription to the channel is listed, with the subscriber's own card |
| SubscriptionController.ChannelsComplete | backend/src/controllers/subscription.controller.js:180-224 | every subscription of the subscriber is listed, with the channel's own card |
| PlaylistController.CreatePlaylist | backend/src/controllers/playlist.controller.js:13-65 | success exactly when neither field is blank and no playlist of any owner has the same name or the same description; then an empty playlist owned by the caller is appended; every refusal is 400 and changes nothing |
| PlaylistController.GetUserPlaylists | backend/src/controllers/playlist.controller.js:71-98 | 400 exactly for an invalid id; otherwise exactly the user's playlists, in order, and 404 when they have none |
| PlaylistController.GetPlaylistById | backend/src/controllers/playlist.controller.js:105-134 | 400 exactly for an invalid id; 404 exactly when no playlist has the id; otherwise a stored playlist with that id |
| PlaylistController.MembershipRefusal | backend/src/controllers/playlist.controller.js:144-169 | the checks in order: an invalid id gives 400, a missing playlist 404, another owner 403, a missing video 404; then 400 when `includes` finds the video (adding) or does not find it (removing), where `includes` finds it only for a canonical id that is in the list |
| PlaylistController.NonCanonicalMembership | backend/src/controllers/playlist.controller.js:167-178 | a video already in the caller's playlist, named by a non-canonical valid id, passes the add check and ends up in the list twice, and fails the remove check; by its canonical id it is refused on add and accepted on remove |
| PlaylistController.ReplacePlaylist | backend/src/controllers/playlist.controller.js:172-184 | replacing a playlist by one with the same id keeps the playlist collection's invariants |
| PlaylistController.AddVideoToPlaylist | backend/src/controllers/playlist.controller.js:141-202 | refused with the status of the first failing check and no change; otherwise the video is appended at the end of that playlist, so it holds one more copy of the id, and nothing else changes; a canonical id was absent before and keeps a duplicate-free list duplicate-free, while a non-canonical id is appended even when already there |
| PlaylistController.RemoveVideoFromPlaylist | backend/src/controllers/playlist.controller.js:208-265 | the same checks ("not found" instead of "found"), so a non-canonical id is always refused once the playlist and video exist; otherwise the id was canonical and in the list, every occurrence leaves it, the other entries stay, a duplicate-free list stays duplicate-free, and nothing else changes |
| PlaylistController.AddThenRemove | backend/src/controllers/playlist.controller.js:167-249 | adding a video the playlist lacks, then removing it, restores the collection of playlists |
| PlaylistController.PushThenPull | backend/src/controllers/playlist.controller.js:176-178 | `$pull` of a video that was just pushed onto a list lacking it restores the playlist |
| PlaylistController.DeletePlaylist | backend/src/controllers/playlist.controller.js:271-300 | 400 for an invalid id and 500 for a valid one, because `playlist` is read before its declaration; nothing is ever deleted |
| PlaylistController.UpdatePlaylist | backend/src/controllers/playlist.controller.js:306-347 | 400 with no change for an invalid id, a blank field or a missing playlist; otherwise only name and description change; no ownership check |
| CommentController.CommentRows | backend/src/controllers/comment.controller.js:23-63 | one entry per comment on the video, in collection order, each with its owner's card |
| CommentController.GetVideoComments | backend/src/controllers/comment.controller.js:11-92 | every refusal is 400 (invalid id, negative skip, non-positive limit, empty page); otherwise the window at `(page - 1) * limit` of the video's comments, at most `limit` of them |
| CommentController.VideoCommentsSound | backend/src/controllers/comment.controller.js:23-63 | every listed comment is a stored comment on the video, shown with its owner's card |
| CommentController.FirstPageIsPrefix | backend/src/controllers/comment.controller.js:65-70 | page 1 is the first `limit` entries of the whole listing |
| CommentController.EveryCommentListed | backend/src/controllers/comment.controller.js:65-70 | for a fixed positive limit, every comment on the video is on some page |
| CommentController.RowOf | backend/src/controllers/comment.controller.js:23-63 | each comment on the video has a row in the listing |
| CommentController.RowOnPage | backend/src/controllers/comment.controller.js:65-70 | row `k` is on page `k / limit + 1` |
| CommentController.EntryOnPage | backend/src/controllers/comment.controller.js:65-70 | entry `k` is in the window at the skip of page `k / limit + 1` |
| CommentController.PageAt | backend/src/controllers/comment.controller.js:65-70 | page `q + 1` is the window at `q * limit` |
| CommentController.AddComment | backend/src/controllers/comment.controller.js:98-140 | 400 with no change exactly for an invalid id or empty content; otherwise a comment by the caller on that video is appended, without checking that the video exists |
| CommentController.UpdateComment | backend/src/controllers/comment.controller.js:147-196 | 400 for an invalid id or empty content; 500 exactly for a missing comment, because the inner 400 is caught; otherwise only the content changes; no ownership check |
| CommentController.UpdateCommentIdempotent | backend/src/controllers/comment.controller.js:166-176 | repeating an edit with the same content changes nothing more |
| CommentController.DeleteComment | backend/src/controllers/comment.controller.js:202-233 | 400 for an invalid id; 500 exactly for a missing comment; otherwise that comment, and only that comment, is removed |
| TweetController.CreateTweet | backend/src/controllers/tweet.controller.js:13-38 | 400 with no change exactly for empty content; otherwise a tweet owned by the caller is appended |
| TweetController.TweetEntries | backend/src/controllers/tweet.controller.js:52-94 | one projected entry per matched tweet, position by position |
| TweetController.GetUserTweets | backend/src/controllers/tweet.controller.js:44-109 | every refusal is 400: an invalid id, or a user with no tweet; otherwise one entry per tweet of the user, each with the user's card |
| TweetController.UserTweetsSound | backend/src/controllers/tweet.controller.js:52-94 | every entry is a stored tweet of that user |
| TweetController.UserTweetsComplete | backend/src/controllers/tweet.controller.js:52-94 | every tweet of the user is listed |
| TweetController.UpdateTweet | backend/src/controllers/tweet.controller.js:115-160 | 400 exactly for an invalid id or empty content, before the store is read; 404 exactly for a missing tweet; otherwise only the content changes; no ownership check |
| TweetController.UpdateTweetIdempotent | backend/src/controllers/tweet.controller.js:131-141 | repeating an edit with the same content changes nothing more |
| TweetController.DeleteTweet | backend/src/controllers/tweet.controller.js:166-191 | 400 with no change for an invalid id or a missing tweet; otherwise exactly that tweet is removed; no ownership check |
| DashboardController.GetChannelStats | backend/src/controllers/dashboard.controller.js:14-91 | each total is 0 when nothing matches: no videos means no views and no likes; no subscriptions means no subscribers; each of the caller's videos counts towards the totals, published or not |
| DashboardController.SumAtLeast | backend/src/controllers/dashboard.controller.js:19-50 | the `$sum` of views is at least the views of each summed video |
| DashboardController.StatsAfterPublish | backend/src/controllers/dashboard.controller.js:19-82 | a new video by the caller adds one to the video count, its views to the total views and its likes to the total likes; a video of another owner changes nothing |
| DashboardController.StatsAfterSubscriptionToggle | backend/src/controllers/dashboard.controller.js:53-82 | toggling a subscription to the caller's channel adds one subscriber when it was absent and removes one when it was there; a toggle on another channel leaves the subscriber total alone; no toggle moves the video, view or like totals |
| DashboardController.StatsAfterView | backend/src/controllers/dashboard.controller.js:19-82 | reading one of the caller's videos raises their total views by one and changes no other total |
| DashboardController.GetChannelVideos | backend/src/controllers/dashboard.controller.js:97-160 | 500 exactly when sortBy is falsy; otherwise the listed videos are published and match the search, and a page holds at most the page size; the owner is not filtered |
| DashboardController.ChannelVideosOfOthers | backend/src/controllers/dashboard.controller.js:112-130 | a published video of another user is the whole of the caller's channel listing sorted by views |
| UserController.Refusal | backend/src/controllers/user.controller.js:44-91 | a blank field gives 400; otherwise a userName or email in use gives 409; otherwise `req.files` present without an avatar field gives 500, no avatar path or a failed upload gives 400, and an absent field or an upload without a url gives 500; registration goes through exactly when no field is blank or absent, nothing clashes, an avatar file is given and uploaded, and it has a url |
| UserController.NewUser | backend/src/controllers/user.controller.js:29-102 | fails exactly as `Refusal` says; otherwise a well-formed user under the given id whose userName and email no stored user has |
| UserController.NewUserStored | backend/src/controllers/user.controller.js:84-91 | userName and email are stored lowercased and trimmed, fullName trimmed; the avatar url is stored; coverImage is the cover's url or ""; the watch history is empty |
| UserController.StoredFieldsNormal | backend/src/models/user.model.js:6-28 | the stored forms of non-blank fields are non-empty and in normal form, and the controller's own `toLowerCase` agrees with the setter |
| UserController.RegisterUser | backend/src/controllers/user.controller.js:29-102 | a refusal creates nothing; otherwise the new user is appended and returned without its password |
| UserController.GenerateAccessAndRefreshTokens | backend/src/controllers/user.controller.js:12-23 | 500 exactly when no user has the id; otherwise that user's two tokens; nothing is stored, because `refreshToken` is not a schema path |
| UserController.LoginUser | backend/src/controllers/user.controller.js:110-174 | the checks in order: neither email nor userName gives 400, no matching user 404, a refused password 401; otherwise the earliest matching user, without the password, and its tokens |
| UserController.LoginFindsNewUser | backend/src/controllers/user.controller.js:124-138 | a user appended under an unused userName is the user that a login with that userName, as typed, finds |
| UserController.LoginAfterRegister | backend/src/controllers/user.controller.js:29-174 | a user who has just registered can log in with the userName they typed, whatever its case and padding |

## Left out

- Authentication: `verifyJWT` is not part of this model. The caller's id is a parameter.
- Password comparison and token signing are the parameters `passwordOk`, `access` and `refresh`.
  - The user schema file declares no `isPasswordCorrect`, `generateAccessToken` or `generateRefreshToken` method, and no hashing hook.
  - As written, those calls would throw. The model assumes that the methods exist elsewhere.
- The password is stored as given. The bcrypt hashing and the JWT contents are not modelled.
- Cookies, the response envelope and the success statuses (200/201) are not modelled. A result is `Ok(value)`.
- The paginator's metadata (totalDocs, totalPages and the rest) is not modelled.
  - The listings model only the page window.
  - page < 1 is taken as 1, and limit < 1 as 10. This is the library's default behaviour as documented, not read from code in this model.
  - Query-string parsing is not modelled: page and limit are integers, and NaN is not modelled.
- `$regex` matching is the parameter `matches`.
- A client-named sort field is the abstract order `rank`. No stability is claimed.
- A request without `sortBy` builds an empty `$sort` document, which the database refuses; `VideoController.Paged`, `VideoController.GetAllVideos`, `VideoController.GetMyAllVideos` and `DashboardController.GetChannelVideos` answer it with 500.
- VideoController.GetAllVideos, VideoController.GetMyAllVideos and DashboardController.GetChannelVideos: a `query` that is not a valid regular expression makes the database refuse the `$regex` and the handler answer 500. This is not modelled: `matches` is total, so these members answer a page for every query.
- The blob store's upload and destroy calls are parameters. The logging is not modelled.
- The local file deletion (`fs.unlinkSync`, at backend/src/utils/cloudinary.js:26 and 34) is not modelled. When it throws, for instance because the temporary file is already gone, the helper's promise rejects and the handler answers 500. `Option<Asset>` has no outcome for that rejection. So Cloudinary.UploadOnCloudinary, VideoController.PublishAVideo, VideoController.UpdateVideo, UserController.RegisterUser and the other upload handlers never answer 500 for it.
- Concurrency is not modelled. The check-then-act races of the toggles and of the uniqueness pre-check are outside a sequential model.
- Only these shapes of `req.files` are modelled: present or absent, with or without an `avatar` field, and the first path of each field.
  - The `Array.isArray` test of the cover reduces to "a cover path is given".
  - Body fields are strings or absent. Other JSON types, and their TypeErrors, are not modelled.
- `Lower` folds ASCII letters only.
- Schemas: none of the video, comment, like, subscription, tweet or playlist schemas is part of this model. `Records.InitialViews` (0) and `Records.PublishedOnCreate` (true) are the defaults a new video is assumed to get from the video schema.
- Undefined `$set` values: `VideoController.Edited` and `PlaylistController.Renamed` leave a field unchanged when its value is undefined, and `VideoController.GetVideoById` writes `views: undefined` when no video matched. This relies on Mongoose 6 or later dropping undefined `$set` values; Mongoose 5 would write null instead. The Mongoose version is not part of this model. In `GetVideoById` that write matches no document anyway, because no video has the id.
  - Their fields are taken from the handlers.
  - Timestamps are modelled only as a like's `createdAt`, which the caller passes as `now`.
- Checks that can never fail are not modelled. Examples: `createTweet` tests the function itself instead of the created tweet, and the `findById` after a `create`.
- The Express app, the server bootstrap, the route wiring and `asyncHandler` are not modelled. Their only part here is that an exception becomes a status.
- `LikeController.ToggleLikeThrice` proves equality of the whole collection only from "liked". From "not liked" it claims equality of the other keys and of the liked status, because the like created twice gets different ids.
- LikeController.ToggleLikeTwice and SubscriptionController.ToggleSubscriptionTwice restore the very same collection only from "not liked" / "not subscribed". From the liked or subscribed state the second toggle re-creates the record under a new id and at the end, so they claim there only that the other keys and the status come back.
- The text of a route id is not modelled: ids are opaque numbers. `IdArg` says whether `isValidObjectId` accepts the text and which id it denotes, and AddVideoToPlaylist and RemoveVideoFromPlaylist take whether the text is canonical as the parameter `canonical`.
- Filters with an absent value: the driver sends an undefined filter value as null, and null matches a document that lacks the field. `PlaylistController.SameNameOrDescription` (the `$or` of `createPlaylist`) and `UserController.Clashes` (the `$or` of `registerUser` and `loginUser`) rest on this assumption about the driver; no code of the driver is part of this model. Every stored user has both fields, so an absent value matches no user there.
