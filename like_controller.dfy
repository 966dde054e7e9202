/** The like handlers: the three toggles, which find the caller's like of a
    target and delete it or create one, and the listing of the caller's
    liked videos. No toggle checks that the target exists. */
module LikeController {
  import opened Base
  import opened Query
  import opened ToggleRelation
  import opened UserModel
  import opened Records
  import opened Store

  /** What a toggle answers: the like it created, or `{}` after deleting. */
  datatype Toggled = Liked(like: Like) | Unliked

  /** The like collection after `caller` toggles `target`, where `id` and
      `now` are what a created like would get. */
  function ToggledLikes(likes: seq<Like>, target: LikeTarget, caller: Id, id: Id, now: int): seq<Like>
  {
    Toggle(likes, LikeKey, (target, caller), Like(id, target, caller, now))
  }

  predicate LikedBy(likes: seq<Like>, target: LikeTarget, caller: Id)
  {
    HasKey(likes, LikeKey, (target, caller))
  }

  /** `findOne({target, likedBy})`, then `create` when nothing was found or
      `findOneAndDelete` with the same filter when something was. */
  method ToggleLike(db: Db, caller: Id, target: LikeTarget, now: int) returns (r: Toggled)
    requires db.Valid()
    modifies db`likes, db`nextId
    ensures db.Valid()
    ensures db.likes == ToggledLikes(old(db.likes), target, caller, old(db.nextId), now)
    ensures r == if LikedBy(old(db.likes), target, caller) then Unliked
                 else Liked(Like(old(db.nextId), target, caller, now))
    ensures db.nextId == if r.Liked? then old(db.nextId) + 1 else old(db.nextId)
  {
    var k := (target, caller);
    var i := FirstIndex(db.likes, KeyIs(LikeKey, k));
    ToggleKeepsUnique(db.likes, LikeKey, k, Like(db.nextId, target, caller, now));
    if i.None? {
      var id := db.NewId();
      var like := Like(id, target, caller, now);
      AppendFresh(db.likes, IdOfLike, like, id);
      WithLikes(db.users, db.videos, db.comments, db.likes, db.subscriptions, db.tweets, db.playlists, db.nextId,
                db.likes + [like]);
      db.likes := db.likes + [like];
      r := Liked(like);
    } else {
      var likes' := db.likes[..i.value] + db.likes[i.value + 1..];
      RemoveAtKeeps(db.likes, IdOfLike, i.value);
      RemoveAtBelow(db.likes, IdOfLike, i.value, db.nextId);
      WithLikes(db.users, db.videos, db.comments, db.likes, db.subscriptions, db.tweets, db.playlists, db.nextId,
                likes');
      db.likes := likes';
      r := Unliked;
    }
  }

  /** `toggleVideoLike`: 400 for an invalid id, otherwise a toggle of the
      caller's like of that video. */
  method ToggleVideoLike(db: Db, caller: Id, videoId: IdArg, now: int) returns (r: Result<Toggled>)
    requires db.Valid()
    modifies db`likes, db`nextId
    ensures db.Valid()
    ensures videoId.Invalid? ==> r == Err(BadRequest) && db.likes == old(db.likes) && db.nextId == old(db.nextId)
    ensures videoId.Parsed? ==>
              && db.likes == ToggledLikes(old(db.likes), OnVideo(videoId.id), caller, old(db.nextId), now)
              && r == Ok(if LikedBy(old(db.likes), OnVideo(videoId.id), caller) then Unliked
                         else Liked(Like(old(db.nextId), OnVideo(videoId.id), caller, now)))
  {
    if videoId.Invalid? {
      return Err(BadRequest);
    }
    var t := ToggleLike(db, caller, OnVideo(videoId.id), now);
    r := Ok(t);
  }

  /** `toggleCommentLike`: the same on the `comment` field. */
  method ToggleCommentLike(db: Db, caller: Id, commentId: IdArg, now: int) returns (r: Result<Toggled>)
    requires db.Valid()
    modifies db`likes, db`nextId
    ensures db.Valid()
    ensures commentId.Invalid? ==> r == Err(BadRequest) && db.likes == old(db.likes) && db.nextId == old(db.nextId)
    ensures commentId.Parsed? ==>
              && db.likes == ToggledLikes(old(db.likes), OnComment(commentId.id), caller, old(db.nextId), now)
              && r == Ok(if LikedBy(old(db.likes), OnComment(commentId.id), caller) then Unliked
                         else Liked(Like(old(db.nextId), OnComment(commentId.id), caller, now)))
  {
    if commentId.Invalid? {
      return Err(BadRequest);
    }
    var t := ToggleLike(db, caller, OnComment(commentId.id), now);
    r := Ok(t);
  }

  /** `toggleTweetLike`: the same on the `tweet` field. */
  method ToggleTweetLike(db: Db, caller: Id, tweetId: IdArg, now: int) returns (r: Result<Toggled>)
    requires db.Valid()
    modifies db`likes, db`nextId
    ensures db.Valid()
    ensures tweetId.Invalid? ==> r == Err(BadRequest) && db.likes == old(db.likes) && db.nextId == old(db.nextId)
    ensures tweetId.Parsed? ==>
              && db.likes == ToggledLikes(old(db.likes), OnTweet(tweetId.id), caller, old(db.nextId), now)
              && r == Ok(if LikedBy(old(db.likes), OnTweet(tweetId.id), caller) then Unliked
                         else Liked(Like(old(db.nextId), OnTweet(tweetId.id), caller, now)))
  {
    if tweetId.Invalid? {
      return Err(BadRequest);
    }
    var t := ToggleLike(db, caller, OnTweet(tweetId.id), now);
    r := Ok(t);
  }

  /** With at most one like per (target, user), a toggle creates exactly
      one like when there was none, and otherwise deletes the one there was
      and leaves none. */
  lemma ToggleLikeEffect(likes: seq<Like>, target: LikeTarget, caller: Id, id: Id, now: int)
    requires UniqueKeys(likes, LikeKey)
    ensures !LikedBy(likes, target, caller) ==>
              ToggledLikes(likes, target, caller, id, now) == likes + [Like(id, target, caller, now)]
    ensures LikedBy(likes, target, caller) ==>
              && !LikedBy(ToggledLikes(likes, target, caller, id, now), target, caller)
              && |ToggledLikes(likes, target, caller, id, now)| == |likes| - 1
    ensures UniqueKeys(ToggledLikes(likes, target, caller, id, now), LikeKey)
  {
    var k := (target, caller);
    var created := Like(id, target, caller, now);
    ToggleKeepsUnique(likes, LikeKey, k, created);
    if LikedBy(likes, target, caller) {
      UniqueHasOneCopy(likes, LikeKey, k);
      ToggleEffect(likes, LikeKey, k, created);
      HasKeyIffCopies(likes, LikeKey, k);
      HasKeyIffCopies(ToggledLikes(likes, target, caller, id, now), LikeKey, k);
    }
  }

  /** Two toggles of one target by one user: from "not liked" the
      collection is exactly as before; from "liked" every other like is
      where it was and the target is liked once again, by a new record. */
  lemma ToggleLikeTwice(likes: seq<Like>, target: LikeTarget, caller: Id,
                        id1: Id, now1: int, id2: Id, now2: int)
    requires UniqueKeys(likes, LikeKey)
    ensures var twice := ToggledLikes(ToggledLikes(likes, target, caller, id1, now1), target, caller, id2, now2);
            && (!LikedBy(likes, target, caller) ==> twice == likes)
            && Others(twice, LikeKey, (target, caller)) == Others(likes, LikeKey, (target, caller))
            && (LikedBy(twice, target, caller) <==> LikedBy(likes, target, caller))
  {
    var k := (target, caller);
    var once := ToggledLikes(likes, target, caller, id1, now1);
    UniqueHasOneCopy(likes, LikeKey, k);
    ToggleTwice(likes, LikeKey, k, Like(id1, target, caller, now1), Like(id2, target, caller, now2));
    HasKeyIffCopies(likes, LikeKey, k);
    HasKeyIffCopies(ToggledLikes(once, target, caller, id2, now2), LikeKey, k);
    if !LikedBy(likes, target, caller) {
      ToggleTwiceFromAbsent(likes, LikeKey, k, Like(id1, target, caller, now1), Like(id2, target, caller, now2));
    }
  }

  /** Three toggles have the effect of one; from "liked" the collections
      are equal. */
  lemma ToggleLikeThrice(likes: seq<Like>, target: LikeTarget, caller: Id,
                         id1: Id, now1: int, id2: Id, now2: int, id3: Id, now3: int)
    requires UniqueKeys(likes, LikeKey)
    ensures var once := ToggledLikes(likes, target, caller, id1, now1);
            var thrice := ToggledLikes(ToggledLikes(once, target, caller, id2, now2), target, caller, id3, now3);
            && Others(thrice, LikeKey, (target, caller)) == Others(once, LikeKey, (target, caller))
            && (LikedBy(thrice, target, caller) <==> LikedBy(once, target, caller))
            && (LikedBy(likes, target, caller) ==> thrice == once)
  {
    var k := (target, caller);
    var once := ToggledLikes(likes, target, caller, id1, now1);
    var thrice := ToggledLikes(ToggledLikes(once, target, caller, id2, now2), target, caller, id3, now3);
    UniqueHasOneCopy(likes, LikeKey, k);
    ToggleThrice(likes, LikeKey, k, Like(id1, target, caller, now1), Like(id2, target, caller, now2),
                 Like(id3, target, caller, now3));
    HasKeyIffCopies(once, LikeKey, k);
    HasKeyIffCopies(thrice, LikeKey, k);
  }

  /** A toggle never touches the likes of another target, of another kind,
      or of another user: the likes with any other (target, user) pair are
      the same records, in the same order. */
  lemma ToggleLikeIsolated(likes: seq<Like>, target: LikeTarget, caller: Id, id: Id, now: int,
                           otherTarget: LikeTarget, otherUser: Id)
    requires otherTarget != target || otherUser != caller
    ensures Filter(ToggledLikes(likes, target, caller, id, now), KeyIs(LikeKey, (otherTarget, otherUser)))
         == Filter(likes, KeyIs(LikeKey, (otherTarget, otherUser)))
  {
    ToggleIsolated(likes, LikeKey, (target, caller), Like(id, target, caller, now), (otherTarget, otherUser));
  }

  // ---------------------------------------------------------------------
  // getLikedVideos

  /** A video as the nested lookup gives it: its `owner` replaced by the
      first matching user's card, or removed when there is none. */
  datatype OwnedVideo = OwnedVideo(video: Video, owner: Option<UserCard>)

  /** One document after `$unwind`: a like and one video its lookup found. */
  datatype LikedRow = LikedRow(like: Like, liked: OwnedVideo)

  /** One entry of the answer, projected to `_id, likedBy, video, likedVideos`. */
  datatype LikedVideo = LikedVideo(id: Id, likedBy: Id, video: Id, likedVideos: OwnedVideo)

  datatype LikedVideos = LikedVideos(getLikedVideo: seq<LikedVideo>, totalVideoLike: nat)

  /** The videos the `$lookup` on `localField: "video"` finds for a like; a
      comment or tweet like has no `video`, and finds none. */
  function LookupVideos(l: Like, videos: seq<Video>): seq<Video>
  {
    match l.target
    case OnVideo(v) => Filter(videos, KeyIs(IdOfVideo, v))
    case _ => []
  }

  function RowsOf(l: Like, found: seq<Video>, users: seq<User>): seq<LikedRow>
  {
    seq(|found|, i requires 0 <= i < |found| => LikedRow(l, OwnedVideo(found[i], CardById(users, found[i].owner))))
  }

  /** `$lookup` followed by `$unwind`: one row per (like, found video), so
      a like whose lookup found nothing is dropped. */
  function Unwound(likes: seq<Like>, videos: seq<Video>, users: seq<User>): seq<LikedRow>
  {
    if likes == [] then [] else RowsOf(likes[0], LookupVideos(likes[0], videos), users) + Unwound(likes[1..], videos, users)
  }

  function RowCreatedAt(row: LikedRow): int { row.like.createdAt }

  function LikedByIs(caller: Id): Like -> bool
  {
    (l: Like) => l.likedBy == caller
  }

  function ProjectRow(row: LikedRow): LikedVideo
  {
    LikedVideo(row.like.id, row.like.likedBy, row.liked.video.id, row.liked)
  }

  /** The rows in answer order: `$sort: {createdAt: -1}` over the caller's
      unwound likes. */
  function SortedRows(likes: seq<Like>, videos: seq<Video>, users: seq<User>, caller: Id): seq<LikedRow>
  {
    SortBy(Unwound(Filter(likes, LikedByIs(caller)), videos, users), RowCreatedAt, true)
  }

  /** The rows one like contributes: each is that like with a video of the
      collection whose id is the liked one, and every such video gives a row. */
  lemma RowsOfLike(l: Like, videos: seq<Video>, users: seq<User>)
    ensures var rows := RowsOf(l, LookupVideos(l, videos), users);
            && (forall k :: 0 <= k < |rows| ==>
                  rows[k].like == l && rows[k].liked.video in videos && l.target == OnVideo(rows[k].liked.video.id))
            && (forall v :: 0 <= v < |videos| && l.target == OnVideo(videos[v].id) ==>
                  exists k :: 0 <= k < |rows| && rows[k].liked.video == videos[v])
  {
    var found := LookupVideos(l, videos);
    var rows := RowsOf(l, found, users);
    if l.target.OnVideo? {
      var isV := KeyIs(IdOfVideo, l.target.video);
      assert found == Filter(videos, isV);
      forall k | 0 <= k < |rows|
        ensures rows[k].like == l && rows[k].liked.video in videos && l.target == OnVideo(rows[k].liked.video.id)
      {
        assert rows[k].liked.video == found[k];
        assert isV(found[k]);
        assert IdOfVideo(found[k]) == found[k].id;
      }
      forall v | 0 <= v < |videos| && l.target == OnVideo(videos[v].id)
        ensures exists k :: 0 <= k < |rows| && rows[k].liked.video == videos[v]
      {
        assert isV(videos[v]);
        assert videos[v] in found;
        var m :| 0 <= m < |found| && found[m] == videos[v];
        assert rows[m].liked.video == videos[v];
      }
    }
  }

  /** A row of the unwound join is a like of the collection with a video
      of the collection, the one it likes. */
  lemma {:induction false} UnwoundSound(likes: seq<Like>, videos: seq<Video>, users: seq<User>)
    ensures forall k :: 0 <= k < |Unwound(likes, videos, users)| ==>
              var row := Unwound(likes, videos, users)[k];
              row.like in likes && row.liked.video in videos && row.like.target == OnVideo(row.liked.video.id)
  {
    if likes != [] {
      UnwoundSound(likes[1..], videos, users);
      RowsOfLike(likes[0], videos, users);
      var head: seq<LikedRow> := RowsOf(likes[0], LookupVideos(likes[0], videos), users);
      var tail: seq<LikedRow> := Unwound(likes[1..], videos, users);
      var u: seq<LikedRow> := head + tail;
      assert Unwound(likes, videos, users) == u;
      forall k | 0 <= k < |u|
        ensures u[k].like in likes && u[k].liked.video in videos
        ensures u[k].like.target == OnVideo(u[k].liked.video.id)
      {
        if k < |head| {
          assert u[k] == head[k];
          assert u[k].like == likes[0];
        } else {
          var t := tail[k - |head|];
          assert u[k] == t;
          assert t.like in likes[1..];
          var m :| 0 <= m < |likes[1..]| && likes[1..][m] == t.like;
          assert likes[m + 1] == t.like;
        }
      }
    }
  }

  /** The like at `j`, of the video at `v`, yields a row of the unwound join. */
  lemma {:induction false} UnwoundHas(likes: seq<Like>, videos: seq<Video>, users: seq<User>, j: nat, v: nat)
    requires j < |likes| && v < |videos| && likes[j].target == OnVideo(videos[v].id)
    ensures var u := Unwound(likes, videos, users);
            exists k :: 0 <= k < |u| && u[k].like == likes[j] && u[k].liked.video == videos[v]
    decreases j
  {
    var head: seq<LikedRow> := RowsOf(likes[0], LookupVideos(likes[0], videos), users);
    var tail: seq<LikedRow> := Unwound(likes[1..], videos, users);
    var u: seq<LikedRow> := head + tail;
    assert Unwound(likes, videos, users) == u;
    if j == 0 {
      RowsOfLike(likes[0], videos, users);
      var m :| 0 <= m < |head| && head[m].liked.video == videos[v];
      assert u[m] == head[m];
    } else {
      assert likes[j] == likes[1..][j - 1];
      UnwoundHas(likes[1..], videos, users, j - 1, v);
      var k :| 0 <= k < |tail| && tail[k].like == likes[j] && tail[k].liked.video == videos[v];
      assert u[|head| + k] == tail[k];
    }
  }

  /** The sorted rows are the caller's likes of existing videos, each with
      the video it likes. */
  lemma SortedRowsSound(likes: seq<Like>, videos: seq<Video>, users: seq<User>, caller: Id)
    ensures var rows := SortedRows(likes, videos, users, caller);
            forall i :: 0 <= i < |rows| ==>
              && rows[i].like in likes && rows[i].like.likedBy == caller
              && rows[i].liked.video in videos && rows[i].like.target == OnVideo(rows[i].liked.video.id)
  {
    var mine := Filter(likes, LikedByIs(caller));
    var u := Unwound(mine, videos, users);
    var rows := SortedRows(likes, videos, users, caller);
    UnwoundSound(mine, videos, users);
    forall i | 0 <= i < |rows|
      ensures rows[i].like in likes && rows[i].like.likedBy == caller
      ensures rows[i].liked.video in videos && rows[i].like.target == OnVideo(rows[i].liked.video.id)
    {
      assert rows[i] in multiset(rows);
      assert rows[i] in u;
      var k :| 0 <= k < |u| && u[k] == rows[i];
      assert u[k].like in mine;
      var jj :| 0 <= jj < |mine| && mine[jj] == u[k].like;
      assert LikedByIs(caller)(mine[jj]);
    }
  }

  /** Every like of the caller on an existing video appears, with that video. */
  lemma SortedRowsComplete(likes: seq<Like>, videos: seq<Video>, users: seq<User>, caller: Id)
    ensures var rows := SortedRows(likes, videos, users, caller);
            forall j, v :: 0 <= j < |likes| && 0 <= v < |videos| && likes[j].likedBy == caller
                           && likes[j].target == OnVideo(videos[v].id) ==>
              exists i :: 0 <= i < |rows| && rows[i].like == likes[j] && rows[i].liked.video == videos[v]
  {
    var mine := Filter(likes, LikedByIs(caller));
    var u := Unwound(mine, videos, users);
    var rows := SortedRows(likes, videos, users, caller);
    forall j, v | 0 <= j < |likes| && 0 <= v < |videos| && likes[j].likedBy == caller
                  && likes[j].target == OnVideo(videos[v].id)
      ensures exists i :: 0 <= i < |rows| && rows[i].like == likes[j] && rows[i].liked.video == videos[v]
    {
      assert LikedByIs(caller)(likes[j]);
      assert likes[j] in mine;
      var jj :| 0 <= jj < |mine| && mine[jj] == likes[j];
      UnwoundHas(mine, videos, users, jj, v);
      var k :| 0 <= k < |u| && u[k].like == likes[j] && u[k].liked.video == videos[v];
      assert u[k] in multiset(u);
      assert u[k] in multiset(rows);
      var i :| 0 <= i < |rows| && rows[i] == u[k];
    }
  }

  /** `$project` of the rows to `_id, likedBy, video, likedVideos`. */
  function Projected(rows: seq<LikedRow>): (out: seq<LikedVideo>)
    ensures |out| == |rows|
    ensures forall i :: 0 <= i < |rows| ==> out[i] == ProjectRow(rows[i])
  {
    seq(|rows|, i requires 0 <= i < |rows| => ProjectRow(rows[i]))
  }

  /** Every entry answers a like of the caller on a video that exists. */
  lemma ProjectedSound(likes: seq<Like>, videos: seq<Video>, users: seq<User>, caller: Id)
    ensures var out := Projected(SortedRows(likes, videos, users, caller));
            forall i :: 0 <= i < |out| ==>
              && out[i].likedBy == caller && out[i].likedVideos.video in videos
              && out[i].likedVideos.video.id == out[i].video
              && exists j :: 0 <= j < |likes| && likes[j].id == out[i].id && likes[j].likedBy == caller
                               && likes[j].target == OnVideo(out[i].video)
  {
    var rows := SortedRows(likes, videos, users, caller);
    var out := Projected(rows);
    SortedRowsSound(likes, videos, users, caller);
    forall i | 0 <= i < |out|
      ensures && out[i].likedBy == caller && out[i].likedVideos.video in videos
              && out[i].likedVideos.video.id == out[i].video
              && exists j :: 0 <= j < |likes| && likes[j].id == out[i].id && likes[j].likedBy == caller
                               && likes[j].target == OnVideo(out[i].video)
    {
      var row := rows[i];
      assert out[i] == ProjectRow(row);
      assert row.like in likes && row.like.likedBy == caller;
      var j :| 0 <= j < |likes| && likes[j] == row.like;
    }
  }

  /** Every like of the caller on a video that exists has an entry. */
  lemma ProjectedComplete(likes: seq<Like>, videos: seq<Video>, users: seq<User>, caller: Id)
    ensures var out := Projected(SortedRows(likes, videos, users, caller));
            forall j, v :: 0 <= j < |likes| && 0 <= v < |videos| && likes[j].likedBy == caller
                           && likes[j].target == OnVideo(videos[v].id) ==>
              exists i :: 0 <= i < |out| && out[i].id == likes[j].id && out[i].likedVideos.video == videos[v]
  {
    var rows := SortedRows(likes, videos, users, caller);
    var out := Projected(rows);
    SortedRowsComplete(likes, videos, users, caller);
    forall j, v | 0 <= j < |likes| && 0 <= v < |videos| && likes[j].likedBy == caller
                  && likes[j].target == OnVideo(videos[v].id)
      ensures exists i :: 0 <= i < |out| && out[i].id == likes[j].id && out[i].likedVideos.video == videos[v]
    {
      var i :| 0 <= i < |rows| && rows[i].like == likes[j] && rows[i].liked.video == videos[v];
      assert out[i] == ProjectRow(rows[i]);
    }
  }

  /** `getLikedVideos`: the caller's likes of videos that exist, newest
      first, each with its video and the video owner's card, and their number. */
  function GetLikedVideos(likes: seq<Like>, videos: seq<Video>, users: seq<User>, caller: Id): (r: LikedVideos)
    ensures r.totalVideoLike == |r.getLikedVideo|
    ensures forall i :: 0 <= i < |r.getLikedVideo| ==>
              && r.getLikedVideo[i].likedBy == caller && r.getLikedVideo[i].likedVideos.video in videos
              && r.getLikedVideo[i].likedVideos.video.id == r.getLikedVideo[i].video
              && exists j :: 0 <= j < |likes| && likes[j].id == r.getLikedVideo[i].id && likes[j].likedBy == caller
                               && likes[j].target == OnVideo(r.getLikedVideo[i].video)
    ensures forall j, v :: 0 <= j < |likes| && 0 <= v < |videos| && likes[j].likedBy == caller
                           && likes[j].target == OnVideo(videos[v].id) ==>
              exists i :: 0 <= i < |r.getLikedVideo| && r.getLikedVideo[i].id == likes[j].id
                          && r.getLikedVideo[i].likedVideos.video == videos[v]
  {
    ProjectedSound(likes, videos, users, caller);
    ProjectedComplete(likes, videos, users, caller);
    var out := Projected(SortedRows(likes, videos, users, caller));
    LikedVideos(out, |out|)
  }

  /** The answer lists the sorted rows in order, so it is ordered by the
      likes' `createdAt`, newest first. */
  lemma GetLikedVideosNewestFirst(likes: seq<Like>, videos: seq<Video>, users: seq<User>, caller: Id)
    ensures var rows := SortedRows(likes, videos, users, caller);
            var out := GetLikedVideos(likes, videos, users, caller).getLikedVideo;
            && |out| == |rows|
            && (forall i :: 0 <= i < |rows| ==> out[i].id == rows[i].like.id)
            && (forall i, j :: 0 <= i < j < |rows| ==> rows[i].like.createdAt >= rows[j].like.createdAt)
  {
    var rows := SortedRows(likes, videos, users, caller);
    assert SortedBy(rows, RowCreatedAt, true);
    forall i, j | 0 <= i < j < |rows| ensures rows[i].like.createdAt >= rows[j].like.createdAt {
      assert Ordered(rows[i], rows[j], RowCreatedAt, true);
    }
  }
}
