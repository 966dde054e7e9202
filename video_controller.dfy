/** The video handlers: the two paginated listings, the detail read with
    its view counter and watch-history update, and the handlers that
    create, edit, delete and (un)publish a video. The `$regex` search and
    the order of a client-named sort field are parameters: `matches(pattern,
    text)` says whether the case-insensitive pattern matches, `rank(field,
    v)` places a video in the order of that field. */
module VideoController {
  import opened Base
  import opened Query
  import opened UserModel
  import opened Records
  import opened Store
  import opened Cloudinary

  // ---------------------------------------------------------------------
  // Listings

  /** A sort option `{[sortBy]: direction}`. */
  datatype SortKey = SortKey(field: string, direction: int)

  /** The sort token: no key for a falsy `sortBy`; otherwise -1 exactly
      when `sortType` is "desc" and 1 for any other value. */
  function SortOf(sortBy: Option<string>, sortType: Option<string>): (r: Option<SortKey>)
    ensures r.None? <==> Falsy(sortBy)
    ensures r.Some? ==> r.value.field == sortBy.value
    ensures r.Some? ==> (r.value.direction == -1 <==> sortType == Some("desc"))
    ensures r.Some? ==> (r.value.direction == 1 <==> sortType != Some("desc"))
  {
    if Falsy(sortBy) then None
    else Some(SortKey(sortBy.value, if sortType == Some("desc") then -1 else 1))
  }

  /** The `$or` of the two `$regex` clauses; a falsy query adds no clause. */
  predicate SearchHit(v: Video, query: Option<string>, matches: (string, string) -> bool)
  {
    || Falsy(query)
    || (v.title.Some? && matches(query.value, v.title.value))
    || (v.description.Some? && matches(query.value, v.description.value))
  }

  /** The `$match` of `getAllVideos`. */
  function PublishedHit(query: Option<string>, matches: (string, string) -> bool): Video -> bool
  {
    (v: Video) => v.isPublished && SearchHit(v, query, matches)
  }

  /** The `$match` of `getMyAllVideos`: also the owner. */
  function OwnPublishedHit(owner: Id, query: Option<string>, matches: (string, string) -> bool): Video -> bool
  {
    (v: Video) => v.owner == owner && v.isPublished && SearchHit(v, query, matches)
  }

  function RankBy(rank: (string, Video) -> int, field: string): Video -> int
  {
    (v: Video) => rank(field, v)
  }

  /** `$match` then `$sort`: the matched videos, ordered by the sort key. */
  function Listing(videos: seq<Video>, keep: Video -> bool, sort: SortKey,
                   rank: (string, Video) -> int): (r: seq<Video>)
    ensures multiset(r) == multiset(Filter(videos, keep))
    ensures SortedBy(r, RankBy(rank, sort.field), sort.direction == -1)
  {
    SortBy(Filter(videos, keep), RankBy(rank, sort.field), sort.direction == -1)
  }

  /** The page number and page size as the paginator uses them. */
  function PageNumber(page: int): nat { if page < 1 then 1 else page }
  function PageSize(limit: int): nat { if limit < 1 then 10 else limit }

  function PageSkip(page: int, limit: int): nat
  {
    (PageNumber(page) - 1) * PageSize(limit)
  }

  /** Every listed video is a stored video the filter keeps. */
  lemma ListingSound(videos: seq<Video>, keep: Video -> bool, sort: SortKey,
                     rank: (string, Video) -> int, skip: nat, take: nat)
    ensures var w := Window(Listing(videos, keep, sort, rank), skip, take);
            forall i :: 0 <= i < |w| ==> w[i] in videos && keep(w[i])
  {
    var l := Listing(videos, keep, sort, rank);
    var w := Window(l, skip, take);
    forall i | 0 <= i < |w| ensures w[i] in videos && keep(w[i]) {
      assert w[i] == l[skip + i];
      assert l[skip + i] in multiset(Filter(videos, keep));
    }
  }

  /** The `$match`, `$sort` and paging shared by the listings. Without a
      `sortBy` the `$sort` stage is an empty document, which the database
      refuses: the request fails and the error handler answers 500. */
  function Paged(videos: seq<Video>, keep: Video -> bool, sortBy: Option<string>,
                 sortType: Option<string>, page: int, limit: int,
                 rank: (string, Video) -> int): (r: Result<seq<Video>>)
    ensures r == Err(InternalError) <==> Falsy(sortBy)
    ensures r.Ok? <==> !Falsy(sortBy)
    ensures r.Ok? ==> |r.value| <= PageSize(limit)
    ensures r.Ok? ==> forall i :: 0 <= i < |r.value| ==> r.value[i] in videos && keep(r.value[i])
  {
    match SortOf(sortBy, sortType)
    case None => Err(InternalError)
    case Some(k) =>
      ListingSound(videos, keep, k, rank, PageSkip(page, limit), PageSize(limit));
      Ok(Window(Listing(videos, keep, k, rank), PageSkip(page, limit), PageSize(limit)))
  }

  /** `getAllVideos`: 500 without a `sortBy`; otherwise a page of the
      published videos that match the search, at most a page size of them. */
  function GetAllVideos(videos: seq<Video>, query: Option<string>, sortBy: Option<string>,
                        sortType: Option<string>, page: int, limit: int,
                        matches: (string, string) -> bool, rank: (string, Video) -> int): (r: Result<seq<Video>>)
    ensures r == Err(InternalError) <==> Falsy(sortBy)
    ensures r.Ok? <==> !Falsy(sortBy)
    ensures r.Ok? ==> |r.value| <= PageSize(limit)
    ensures r.Ok? ==> forall i :: 0 <= i < |r.value| ==>
              r.value[i] in videos && r.value[i].isPublished && SearchHit(r.value[i], query, matches)
  {
    Paged(videos, PublishedHit(query, matches), sortBy, sortType, page, limit, rank)
  }

  /** With a `sortBy` and a page size fixed, every published video that
      matches the search is on some page; without one, no page is served. */
  lemma GetAllVideosCovers(videos: seq<Video>, query: Option<string>, sortBy: Option<string>,
                           sortType: Option<string>, limit: int,
                           matches: (string, string) -> bool, rank: (string, Video) -> int, v: nat)
    requires v < |videos| && videos[v].isPublished && SearchHit(videos[v], query, matches)
    ensures Falsy(sortBy) ==> forall page ::
              GetAllVideos(videos, query, sortBy, sortType, page, limit, matches, rank) == Err(InternalError)
    ensures !Falsy(sortBy) ==>
              exists page :: 1 <= page &&
                var r := GetAllVideos(videos, query, sortBy, sortType, page, limit, matches, rank);
                r.Ok? && videos[v] in r.value
  {
    if Falsy(sortBy) { return; }
    var keep := PublishedHit(query, matches);
    var l := Listing(videos, keep, SortOf(sortBy, sortType).value, rank);
    assert keep(videos[v]);
    assert videos[v] in Filter(videos, keep);
    assert videos[v] in multiset(l);
    var k :| 0 <= k < |l| && l[k] == videos[v];
    var page := PageOf(l, k, limit);
    var r := GetAllVideos(videos, query, sortBy, sortType, page, limit, matches, rank);
    assert r == Ok(Window(l, PageSkip(page, limit), PageSize(limit)));
  }

  /** The entry at `k` of a listing is on page `k / size + 1`. */
  lemma PageOf(l: seq<Video>, k: nat, limit: int) returns (page: int)
    requires k < |l|
    ensures 1 <= page && l[k] in Window(l, PageSkip(page, limit), PageSize(limit))
  {
    var take := PageSize(limit);
    var q := k / take;
    page := q + 1;
    assert PageSkip(page, limit) == q * take;
    WindowHolds(l, k, take);
  }

  /** `getMyAllVideos`: 400 for an invalid user id before anything is read;
      500 without a `sortBy`; otherwise a page of that user's published
      videos matching the search. */
  function GetMyAllVideos(videos: seq<Video>, userId: IdArg, query: Option<string>, sortBy: Option<string>,
                          sortType: Option<string>, page: int, limit: int,
                          matches: (string, string) -> bool, rank: (string, Video) -> int): (r: Result<seq<Video>>)
    ensures userId.Invalid? <==> r == Err(BadRequest)
    ensures r == Err(InternalError) <==> userId.Parsed? && Falsy(sortBy)
    ensures r.Ok? <==> userId.Parsed? && !Falsy(sortBy)
    ensures r.Ok? ==> |r.value| <= PageSize(limit)
    ensures r.Ok? ==> forall i :: 0 <= i < |r.value| ==>
              && r.value[i] in videos && r.value[i].owner == userId.id && r.value[i].isPublished
              && SearchHit(r.value[i], query, matches)
  {
    if userId.Invalid? then Err(BadRequest)
    else Paged(videos, OwnPublishedHit(userId.id, query, matches), sortBy, sortType, page, limit, rank)
  }

  // ---------------------------------------------------------------------
  // getVideoById

  /** The enriched video `getVideoById` answers with. */
  datatype VideoDetails = VideoDetails(
    id: Id,
    videoFile: Option<string>,
    thumbnail: Option<string>,
    title: Option<string>,
    description: Option<string>,
    duration: Option<real>,
    views: nat,
    isPublished: bool,
    owner: Option<UserCard>,
    likes: nat,
    comments: seq<Comment>,
    totalComments: nat)

  function LikeOfVideo(video: Id): Like -> bool
  {
    (l: Like) => l.target == OnVideo(video)
  }

  function CommentOn(video: Id): Comment -> bool
  {
    (c: Comment) => c.video == video
  }

  /** The aggregation: the first video with the id, its owner's card, the
      number of likes and the comments that reference it, and views + 1;
      nothing when no video has the id. */
  function DetailsOf(videos: seq<Video>, users: seq<User>, likes: seq<Like>, comments: seq<Comment>, video: Id)
    : (r: Option<VideoDetails>)
    ensures r.None? <==> forall i :: 0 <= i < |videos| ==> videos[i].id != video
    ensures r.Some? <==> VideoById(videos, video).Some?
    ensures r.Some? ==>
              var v := VideoById(videos, video).value;
              && v in videos && v.id == video && r.value.id == video
              && r.value.views == v.views + 1
              && r.value.owner == CardById(users, v.owner)
              && r.value.likes == Count(likes, LikeOfVideo(video))
              && r.value.comments == Filter(comments, CommentOn(video))
              && r.value.totalComments == |r.value.comments| == Count(comments, CommentOn(video))
              && (forall i :: 0 <= i < |r.value.comments| ==> r.value.comments[i] in comments && r.value.comments[i].video == video)
              && (forall i :: 0 <= i < |comments| && comments[i].video == video ==> comments[i] in r.value.comments)
              && r.value.videoFile == v.videoFile && r.value.thumbnail == v.thumbnail
              && r.value.title == v.title && r.value.description == v.description
              && r.value.duration == v.duration && r.value.isPublished == v.isPublished
  {
    var m := VideoById(videos, video);
    if m.None? then
      assert forall i :: 0 <= i < |videos| ==> videos[i].id != video by {
        forall i | 0 <= i < |videos| ensures videos[i].id != video {
          assert !KeyIs(IdOfVideo, video)(videos[i]);
          assert IdOfVideo(videos[i]) == videos[i].id;
        }
      }
      None
    else
      var v := m.value;
      assert KeyIs(IdOfVideo, video)(v);
      var cs := Filter(comments, CommentOn(video));
      assert forall i :: 0 <= i < |comments| && comments[i].video == video ==> comments[i] in cs by {
        forall i | 0 <= i < |comments| && comments[i].video == video ensures comments[i] in cs {
          assert CommentOn(video)(comments[i]);
        }
      }
      Some(VideoDetails(v.id, v.videoFile, v.thumbnail, v.title, v.description, v.duration,
                        v.views + 1, v.isPublished, CardById(users, v.owner),
                        Count(likes, LikeOfVideo(video)), cs, |cs|))
  }

  /** The stored video after one view: its counter one higher. */
  function Viewed(v: Video): Video
  {
    v.(views := v.views + 1)
  }

  /** `$addToSet: {watchHistory: video}` on a user. */
  function Watch(video: Id): User -> User
  {
    (u: User) => u.(watchHistory := AddToSet(u.watchHistory, video))
  }

  /** `getVideoById`: 400 for an invalid id. Otherwise the details (nothing
      when no video has the id), the counter written back as the answered
      views, and the id added to the caller's watch history, even when no
      video matched. */
  method GetVideoById(db: Db, caller: Id, videoId: IdArg) returns (r: Result<Option<VideoDetails>>)
    requires db.Valid()
    modifies db`videos, db`users
    ensures db.Valid()
    ensures videoId.Invalid? ==>
              r == Err(BadRequest) && db.videos == old(db.videos) && db.users == old(db.users)
    ensures videoId.Parsed? ==>
              && r == Ok(DetailsOf(old(db.videos), old(db.users), db.likes, db.comments, videoId.id))
              && db.videos == UpdateFirst(old(db.videos), KeyIs(IdOfVideo, videoId.id), Viewed)
              && db.users == UpdateFirst(old(db.users), KeyIs(IdOfUser, caller), Watch(videoId.id))
  {
    if videoId.Invalid? {
      return Err(BadRequest);
    }
    var video := videoId.id;
    var details := DetailsOf(db.videos, db.users, db.likes, db.comments, video);
    db.UpdateVideo(video, Viewed);
    assert forall u :: SameIdentity(u, Watch(video)(u));
    db.UpdateUser(caller, Watch(video));
    r := Ok(details);
  }

  /** The views the answer shows are the views then stored. */
  lemma ViewsWrittenBack(videos: seq<Video>, users: seq<User>, likes: seq<Like>, comments: seq<Comment>, video: Id)
    requires DetailsOf(videos, users, likes, comments, video).Some?
    ensures var after := UpdateFirst(videos, KeyIs(IdOfVideo, video), Viewed);
            VideoById(after, video).Some? &&
            VideoById(after, video).value.views == DetailsOf(videos, users, likes, comments, video).value.views
  {
    UpdateFirstSameIndex(videos, KeyIs(IdOfVideo, video), Viewed);
  }

  /** Repeated fetches by one user leave the watch history as after the
      first: the video is in it, and at most once when it was at most once. */
  lemma WatchIdempotent(users: seq<User>, caller: Id, video: Id)
    ensures var once := UpdateFirst(users, KeyIs(IdOfUser, caller), Watch(video));
            UpdateFirst(once, KeyIs(IdOfUser, caller), Watch(video)) == once
    ensures forall u: User :: video in Watch(video)(u).watchHistory
    ensures forall u: User :: Occurrences(u.watchHistory, video) <= 1 ==> Occurrences(Watch(video)(u).watchHistory, video) == 1
  {
    forall u: User ensures Watch(video)(Watch(video)(u)) == Watch(video)(u) {
      AddToSetProperties(u.watchHistory, video);
    }
    UpdateFirstIdempotent(users, KeyIs(IdOfUser, caller), Watch(video));
    forall u: User | Occurrences(u.watchHistory, video) <= 1
      ensures Occurrences(Watch(video)(u).watchHistory, video) == 1
    {
      AddToSetOneCopy(u.watchHistory, video);
    }
  }

  // ---------------------------------------------------------------------
  // Edits

  /** The `$set` of `updateVideo`: the new thumbnail url, and the title and
      description when they were given (an undefined value sets nothing). */
  function Edited(url: string, title: Option<string>, description: Option<string>): Video -> Video
  {
    (v: Video) => v.(thumbnail := Some(url),
                     title := if title.Some? then title else v.title,
                     description := if description.Some? then description else v.description)
  }

  /** The checks of `updateVideo`, all of which must pass: a valid id, no
      blank title or description, a thumbnail file, an upload with a url,
      and the deletion of the stored video's old thumbnail. */
  predicate EditAccepted(videos: seq<Video>, videoId: IdArg, title: Option<string>, description: Option<string>,
                         thumbnailPath: Option<string>, uploaded: Option<Asset>,
                         destroy: (Option<string>, Option<string>) -> Option<string>)
  {
    && videoId.Parsed? && !Blank(title) && !Blank(description) && !Falsy(thumbnailPath)
    && uploaded.Some? && uploaded.value.url != ""
    && VideoById(videos, videoId.id).Some?
    && DeleteFromCloudinary(VideoById(videos, videoId.id).value.thumbnail, None, destroy)
  }

  /** `updateVideo`. Every failure is 400 and changes nothing: an invalid id,
      a blank title or description, no thumbnail file, an upload without a
      url, or a failed deletion of the old thumbnail, which is what a missing
      video comes to (its thumbnail is undefined). Any caller may edit. */
  method UpdateVideo(db: Db, videoId: IdArg, title: Option<string>, description: Option<string>,
                     thumbnailPath: Option<string>, uploaded: Option<Asset>,
                     destroy: (Option<string>, Option<string>) -> Option<string>)
    returns (r: Result<Video>)
    requires db.Valid()
    modifies db`videos
    ensures db.Valid()
    ensures r.Err? ==> r.status == BadRequest && db.videos == old(db.videos)
    ensures r.Ok? <==> EditAccepted(old(db.videos), videoId, title, description, thumbnailPath, uploaded, destroy)
    ensures r.Ok? ==>
              && db.videos == UpdateFirst(old(db.videos), KeyIs(IdOfVideo, videoId.id),
                                          Edited(uploaded.value.url, title, description))
              && r.value == Edited(uploaded.value.url, title, description)(VideoById(old(db.videos), videoId.id).value)
  {
    if videoId.Invalid? {
      return Err(BadRequest);
    }
    if Blank(title) || Blank(description) {
      return Err(BadRequest);
    }
    if Falsy(thumbnailPath) {
      return Err(BadRequest);
    }
    var thumbnail := UploadOnCloudinary(thumbnailPath, uploaded);
    if thumbnail.None? || thumbnail.value.url == "" {
      return Err(BadRequest);
    }
    var existing := VideoById(db.videos, videoId.id);
    var oldThumbnail := if existing.Some? then existing.value.thumbnail else None;
    var isDeleted := DeleteFromCloudinary(oldThumbnail, None, destroy);
    if !isDeleted {
      return Err(BadRequest);
    }
    var edit := Edited(thumbnail.value.url, title, description);
    db.UpdateVideo(videoId.id, edit);
    r := Ok(edit(existing.value));
  }

  /** `deleteVideo`: 400 for an invalid id or a missing video; both blob
      deletions are requested, and unless both report success the answer is
      400 and the record stays; otherwise exactly that record is removed. */
  method DeleteVideo(db: Db, videoId: IdArg, destroy: (Option<string>, Option<string>) -> Option<string>)
    returns (r: Result<()>)
    requires db.Valid()
    modifies db`videos
    ensures db.Valid()
    ensures r.Err? ==> r.status == BadRequest && db.videos == old(db.videos)
    ensures r.Ok? <==>
              && videoId.Parsed? && VideoById(old(db.videos), videoId.id).Some?
              && DeleteFromCloudinary(VideoById(old(db.videos), videoId.id).value.thumbnail, Some("image"), destroy)
              && DeleteFromCloudinary(VideoById(old(db.videos), videoId.id).value.videoFile, Some("video"), destroy)
    ensures r.Ok? ==> db.videos == DeleteFirst(old(db.videos), KeyIs(IdOfVideo, videoId.id))
  {
    if videoId.Invalid? {
      return Err(BadRequest);
    }
    var existing := VideoById(db.videos, videoId.id);
    if existing.None? {
      return Err(BadRequest);
    }
    var thumbnailDeleted := DeleteFromCloudinary(existing.value.thumbnail, Some("image"), destroy);
    var videoDeleted := DeleteFromCloudinary(existing.value.videoFile, Some("video"), destroy);
    if !videoDeleted || !thumbnailDeleted {
      return Err(BadRequest);
    }
    var videos' := DeleteFirst(db.videos, KeyIs(IdOfVideo, videoId.id));
    DeleteFirstBelow(db.videos, KeyIs(IdOfVideo, videoId.id), IdOfVideo, db.nextId);
    WithVideos(db.users, db.videos, db.comments, db.likes, db.subscriptions, db.tweets, db.playlists, db.nextId, videos');
    db.videos := videos';
    r := Ok(());
  }

  /** The stored video after `video.isPublished = !video.isPublished`. */
  function Flipped(v: Video): Video
  {
    v.(isPublished := !v.isPublished)
  }

  /** `togglePublishStatus`: 400 for an invalid id or a missing video;
      otherwise the flag is negated and the saved video returned. */
  method TogglePublishStatus(db: Db, videoId: IdArg) returns (r: Result<Video>)
    requires db.Valid()
    modifies db`videos
    ensures db.Valid()
    ensures r.Err? ==> r.status == BadRequest && db.videos == old(db.videos)
    ensures r.Ok? <==> videoId.Parsed? && VideoById(old(db.videos), videoId.id).Some?
    ensures r.Ok? ==>
              && db.videos == UpdateFirst(old(db.videos), KeyIs(IdOfVideo, videoId.id), Flipped)
              && r.value == Flipped(VideoById(old(db.videos), videoId.id).value)
  {
    if videoId.Invalid? {
      return Err(BadRequest);
    }
    var existing := VideoById(db.videos, videoId.id);
    if existing.None? {
      return Err(BadRequest);
    }
    db.UpdateVideo(videoId.id, Flipped);
    r := Ok(Flipped(existing.value));
  }

  /** Toggling twice restores the collection, and a toggle changes exactly
      the flag of the video. */
  lemma TogglePublishTwice(videos: seq<Video>, video: Id)
    ensures var once := UpdateFirst(videos, KeyIs(IdOfVideo, video), Flipped);
            UpdateFirst(once, KeyIs(IdOfVideo, video), Flipped) == videos
    ensures forall v: Video :: Flipped(v).isPublished == !v.isPublished && Flipped(v).(isPublished := v.isPublished) == v
  {
    var p := KeyIs(IdOfVideo, video);
    forall v ensures p(Flipped(v)) == p(v) {
      assert Flipped(v).id == v.id;
    }
    forall v ensures Flipped(Flipped(v)) == v {
      assert Flipped(Flipped(v)).isPublished == v.isPublished;
    }
    UpdateFirstInvolution(videos, p, Flipped);
  }

  /** The document `Video.create` stores: the urls and duration of what was
      uploaded, the given title and description, the caller as owner. */
  function NewVideo(id: Id, owner: Id, videoFile: Option<Asset>, thumbnail: Option<Asset>,
                    title: Option<string>, description: Option<string>): Video
  {
    Video(id, owner,
          if videoFile.Some? then Some(videoFile.value.url) else None,
          if thumbnail.Some? then Some(thumbnail.value.url) else None,
          title, description,
          if videoFile.Some? then videoFile.value.duration else None,
          InitialViews, PublishedOnCreate)
  }

  /** What the upload middleware left in `req.files`: nothing at all, or
      the path of the first `videoFile` file (absent when that field is
      missing) and of the first `thumbnail` file. */
  datatype VideoFiles = NoVideoFiles | VideoFiles(videoFile: Option<string>, thumbnail: Option<string>)

  /** A field `req.files` holds without the field itself: indexing it with
      `[0]` throws, and the error handler answers 500. */
  predicate FieldMissing(files: VideoFiles)
  {
    files.VideoFiles? && (files.videoFile.None? || files.thumbnail.None?)
  }

  /** `publishAVideo`: 400 for a blank title or description; 500 when
      `req.files` is there but one of its two fields is not; 400 when
      neither file path is given (no `req.files` at all gives neither) or
      when neither upload succeeded; otherwise one published video owned by
      the caller is appended. One successful upload suffices. */
  method PublishAVideo(db: Db, caller: Id, title: Option<string>, description: Option<string>,
                       files: VideoFiles, videoUpload: Option<Asset>, thumbnailUpload: Option<Asset>)
    returns (r: Result<Video>)
    requires db.Valid()
    modifies db`videos, db`nextId
    ensures db.Valid()
    ensures r.Err? ==> (r.status == BadRequest || r.status == InternalError)
                       && db.videos == old(db.videos) && db.nextId == old(db.nextId)
    ensures r == Err(InternalError) <==> !Blank(title) && !Blank(description) && FieldMissing(files)
    ensures files.NoVideoFiles? ==> r == Err(BadRequest)
    ensures r.Ok? <==>
              && !Blank(title) && !Blank(description)
              && files.VideoFiles? && files.videoFile.Some? && files.thumbnail.Some?
              && !(Falsy(files.videoFile) && Falsy(files.thumbnail))
              && !(UploadOnCloudinary(files.videoFile, videoUpload).None?
                   && UploadOnCloudinary(files.thumbnail, thumbnailUpload).None?)
    ensures r.Ok? ==>
              && r.value == NewVideo(old(db.nextId), caller, UploadOnCloudinary(files.videoFile, videoUpload),
                                     UploadOnCloudinary(files.thumbnail, thumbnailUpload), title, description)
              && db.videos == old(db.videos) + [r.value]
              && db.nextId == old(db.nextId) + 1
              && r.value.isPublished && r.value.views == 0 && r.value.owner == caller
  {
    if Blank(title) || Blank(description) {
      return Err(BadRequest);
    }
    var videoPath: Option<string> := None;
    var thumbnailPath: Option<string> := None;
    if files.VideoFiles? {
      if files.videoFile.None? || files.thumbnail.None? {
        return Err(InternalError);
      }
      videoPath, thumbnailPath := files.videoFile, files.thumbnail;
    }
    if Falsy(videoPath) && Falsy(thumbnailPath) {
      return Err(BadRequest);
    }
    var videoFile := UploadOnCloudinary(videoPath, videoUpload);
    var thumbnail := UploadOnCloudinary(thumbnailPath, thumbnailUpload);
    if videoFile.None? && thumbnail.None? {
      return Err(BadRequest);
    }
    var v := NewVideo(db.nextId, caller, videoFile, thumbnail, title, description);
    db.AddVideo(v);
    r := Ok(v);
  }
}
