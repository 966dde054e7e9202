/** The comment handlers: the paged listing of a video's comments and the
    three writes on the comment collection. */
module CommentController {
  import opened Base
  import opened Query
  import opened UserModel
  import opened Records
  import opened Store

  /** One listed comment: `_id, content, owner` and `commentOwnerDetails`,
      the owner's `{fullName, userName, avatar}`, absent when no user has
      the owner's id. */
  datatype CommentEntry = CommentEntry(id: Id, content: string, owner: Id, commentOwnerDetails: Option<UserCard>)

  function OnVideoIs(video: Id): Comment -> bool
  {
    (c: Comment) => c.video == video
  }

  function EntryOf(users: seq<User>, c: Comment): CommentEntry
  {
    CommentEntry(c.id, c.content, c.owner, CardById(users, c.owner))
  }

  /** The query parameters with their defaults `page = 1`, `limit = 10`. */
  function PageOf(page: Option<int>): int { if page.Some? then page.value else 1 }
  function LimitOf(limit: Option<int>): int { if limit.Some? then limit.value else 10 }

  /** The `$skip` stage's argument `(page - 1) * limit`. */
  function SkipOf(page: Option<int>, limit: Option<int>): int
  {
    (PageOf(page) - 1) * LimitOf(limit)
  }

  /** The comments of a video with their owners, in collection order,
      before `$skip` and `$limit`. */
  function CommentRows(comments: seq<Comment>, users: seq<User>, video: Id): (r: seq<CommentEntry>)
    ensures |r| == Count(comments, OnVideoIs(video))
    ensures forall i :: 0 <= i < |r| ==> r[i] == EntryOf(users, Filter(comments, OnVideoIs(video))[i])
  {
    var on := Filter(comments, OnVideoIs(video));
    seq(|on|, i requires 0 <= i < |on| => EntryOf(users, on[i]))
  }

  /** `getVideoComments`: 400 for an invalid id; a negative `$skip` or a
      `$limit` that is not positive is refused by the database, which
      the handler turns into 400; an empty page is 400 as well. Otherwise
      the page is the window of the video's comments at `(page - 1) * limit`. */
  function GetVideoComments(comments: seq<Comment>, users: seq<User>, videoId: IdArg,
                            page: Option<int>, limit: Option<int>): (r: Result<seq<CommentEntry>>)
    ensures r.Err? ==> r == Err(BadRequest)
    ensures r.Ok? <==>
              && videoId.Parsed? && SkipOf(page, limit) >= 0 && LimitOf(limit) > 0
              && SkipOf(page, limit) < Count(comments, OnVideoIs(videoId.id))
    ensures r.Ok? ==>
              && r.value != []
              && |r.value| <= LimitOf(limit)
              && r.value == Window(CommentRows(comments, users, videoId.id), SkipOf(page, limit), LimitOf(limit))
  {
    if videoId.Invalid? then Err(BadRequest)
    else if SkipOf(page, limit) < 0 || LimitOf(limit) <= 0 then Err(BadRequest)
    else
      var w := Window(CommentRows(comments, users, videoId.id), SkipOf(page, limit), LimitOf(limit));
      if w == [] then Err(BadRequest) else Ok(w)
  }

  /** Every listed comment is a stored comment on that video, shown with
      its owner's card (the one user with that id, when user ids are
      distinct). */
  lemma VideoCommentsSound(comments: seq<Comment>, users: seq<User>, video: Id,
                           page: Option<int>, limit: Option<int>, i: nat)
    requires UniqueKeys(users, IdOfUser)
    requires var r := GetVideoComments(comments, users, Parsed(video), page, limit);
             r.Ok? && i < |r.value|
    ensures var e := GetVideoComments(comments, users, Parsed(video), page, limit).value[i];
            exists j :: 0 <= j < |comments| && comments[j].video == video && comments[j].id == e.id
                        && comments[j].content == e.content && comments[j].owner == e.owner
                        && (forall u :: 0 <= u < |users| && users[u].id == e.owner ==>
                              e.commentOwnerDetails == Some(CardOf(users[u])))
  {
    var rows := CommentRows(comments, users, video);
    var skip := SkipOf(page, limit);
    var e := GetVideoComments(comments, users, Parsed(video), page, limit).value[i];
    var on := Filter(comments, OnVideoIs(video));
    assert e == rows[skip + i] == EntryOf(users, on[skip + i]);
    assert on[skip + i] in comments && OnVideoIs(video)(on[skip + i]);
    var j :| 0 <= j < |comments| && comments[j] == on[skip + i];
    forall u | 0 <= u < |users| && users[u].id == e.owner
      ensures e.commentOwnerDetails == Some(CardOf(users[u]))
    {
      LookupsFindUser(users, u);
    }
  }

  /** The first page is a prefix of the whole listing: its first `limit`
      comments, or all of them when there are fewer. */
  lemma FirstPageIsPrefix(comments: seq<Comment>, users: seq<User>, video: Id, limit: Option<int>)
    requires LimitOf(limit) > 0 && Count(comments, OnVideoIs(video)) > 0
    ensures var rows := CommentRows(comments, users, video);
            var r := GetVideoComments(comments, users, Parsed(video), Some(1), limit);
            && r.Ok?
            && r.value == rows[..if LimitOf(limit) < |rows| then LimitOf(limit) else |rows|]
  {
  }

  /** With a page size fixed, every comment on the video is on some page. */
  lemma EveryCommentListed(comments: seq<Comment>, users: seq<User>, video: Id, limit: Option<int>, c: nat)
    requires LimitOf(limit) > 0 && c < |comments| && comments[c].video == video
    ensures exists page :: 1 <= page &&
              var r := GetVideoComments(comments, users, Parsed(video), Some(page), limit);
              r.Ok? && EntryOf(users, comments[c]) in r.value
  {
    var k := RowOf(comments, users, video, c);
    var page := RowOnPage(comments, users, video, limit, k);
  }

  /** The position of a comment on the video among the video's rows. */
  lemma RowOf(comments: seq<Comment>, users: seq<User>, video: Id, c: nat) returns (k: nat)
    requires c < |comments| && comments[c].video == video
    ensures k < |CommentRows(comments, users, video)|
    ensures CommentRows(comments, users, video)[k] == EntryOf(users, comments[c])
  {
    var on := Filter(comments, OnVideoIs(video));
    assert OnVideoIs(video)(comments[c]);
    assert comments[c] in on;
    k :| 0 <= k < |on| && on[k] == comments[c];
  }

  /** The row at `k` is on page `k / limit + 1`. */
  lemma RowOnPage(comments: seq<Comment>, users: seq<User>, video: Id, limit: Option<int>, k: nat)
    returns (page: int)
    requires LimitOf(limit) > 0 && k < |CommentRows(comments, users, video)|
    ensures 1 <= page
    ensures var r := GetVideoComments(comments, users, Parsed(video), Some(page), limit);
            r.Ok? && CommentRows(comments, users, video)[k] in r.value
  {
    var rows := CommentRows(comments, users, video);
    var q := EntryOnPage(rows, k, limit);
    var skip: nat := SkipOf(Some(q + 1), limit);
    PageAt(comments, users, video, limit, q, skip);
    page := q + 1;
  }

  /** The entry at `k` is in the window of page `k / limit + 1`. */
  lemma EntryOnPage(rows: seq<CommentEntry>, k: nat, limit: Option<int>) returns (q: nat)
    requires LimitOf(limit) > 0 && k < |rows|
    ensures SkipOf(Some(q + 1), limit) >= 0
    ensures rows[k] in Window(rows, SkipOf(Some(q + 1), limit), LimitOf(limit))
  {
    var take := LimitOf(limit);
    q := k / take;
    WindowHolds(rows, k, take);
    assert SkipOf(Some(q + 1), limit) == q * take by {
      assert PageOf(Some(q + 1)) - 1 == q;
    }
  }

  /** Page `q + 1` is the window at `skip`, its `(page - 1) * limit`,
      whenever that window is not empty. */
  lemma PageAt(comments: seq<Comment>, users: seq<User>, video: Id, limit: Option<int>, q: nat, skip: nat)
    requires LimitOf(limit) > 0 && SkipOf(Some(q + 1), limit) == skip
    ensures var w := Window(CommentRows(comments, users, video), skip, LimitOf(limit));
            w != [] ==> GetVideoComments(comments, users, Parsed(video), Some(q + 1), limit) == Ok(w)
  {
  }

  /** `addComment`: 400 for an invalid video id or a missing or empty
      content; otherwise a comment by the caller on that video is
      appended. Nothing checks that the video exists. */
  method AddComment(db: Db, caller: Id, videoId: IdArg, content: Option<string>) returns (r: Result<Comment>)
    requires db.Valid()
    modifies db`comments, db`nextId
    ensures db.Valid()
    ensures r.Err? ==> r.status == BadRequest && db.comments == old(db.comments) && db.nextId == old(db.nextId)
    ensures r.Ok? <==> videoId.Parsed? && !Falsy(content)
    ensures r.Ok? ==>
              && r.value == Comment(old(db.nextId), content.value, videoId.id, caller)
              && db.comments == old(db.comments) + [r.value]
  {
    if videoId.Invalid? || Falsy(content) {
      return Err(BadRequest);
    }
    var c := Comment(db.nextId, content.value, videoId.id, caller);
    db.AddComment(c);
    r := Ok(c);
  }

  /** The `$set: {content}` of `updateComment`. */
  function Rewritten(content: string): Comment -> Comment
  {
    (c: Comment) => c.(content := content)
  }

  /** `updateComment`: 400 for an invalid id or a missing or empty content;
      a missing comment raises 400 inside the `try`, which the `catch`
      turns into 500. Otherwise only the content changes. Any caller may
      edit any comment. */
  method UpdateComment(db: Db, commentId: IdArg, content: Option<string>) returns (r: Result<Comment>)
    requires db.Valid()
    modifies db`comments
    ensures db.Valid()
    ensures r.Err? ==> db.comments == old(db.comments)
    ensures commentId.Invalid? || Falsy(content) ==> r == Err(BadRequest)
    ensures commentId.Parsed? && !Falsy(content) ==>
              var before := First(old(db.comments), KeyIs(IdOfComment, commentId.id));
              && (before.None? <==> r == Err(InternalError))
              && (before.Some? ==>
                    && r == Ok(Rewritten(content.value)(before.value))
                    && r.value.id == commentId.id && r.value.content == content.value
                    && r.value.video == before.value.video && r.value.owner == before.value.owner
                    && db.comments == UpdateFirst(old(db.comments), KeyIs(IdOfComment, commentId.id), Rewritten(content.value)))
  {
    if commentId.Invalid? || Falsy(content) {
      return Err(BadRequest);
    }
    var fi := FirstIndex(db.comments, KeyIs(IdOfComment, commentId.id));
    if fi.None? {
      return Err(InternalError);
    }
    var i := fi.value;
    var after := Rewritten(content.value)(db.comments[i]);
    assert KeyIs(IdOfComment, commentId.id)(db.comments[i]);
    ReplaceKeeps(db.comments, IdOfComment, i, after);
    ReplaceBelow(db.comments, IdOfComment, i, after, db.nextId);
    WithComments(db.users, db.videos, db.comments, db.likes, db.subscriptions, db.tweets, db.playlists,
                 db.nextId, db.comments[i := after]);
    db.comments := db.comments[i := after];
    r := Ok(after);
  }

  /** Repeating an edit with the same content changes nothing more. */
  lemma UpdateCommentIdempotent(comments: seq<Comment>, comment: Id, content: string)
    ensures var p := KeyIs(IdOfComment, comment);
            UpdateFirst(UpdateFirst(comments, p, Rewritten(content)), p, Rewritten(content))
            == UpdateFirst(comments, p, Rewritten(content))
  {
    UpdateFirstIdempotent(comments, KeyIs(IdOfComment, comment), Rewritten(content));
  }

  /** `deleteComment`: 400 for an invalid id, 500 for a missing comment (the
      inner 400 is caught); otherwise exactly that comment is removed and
      every other one stays, in order. */
  method DeleteComment(db: Db, commentId: IdArg) returns (r: Result<()>)
    requires db.Valid()
    modifies db`comments
    ensures db.Valid()
    ensures r.Err? ==> db.comments == old(db.comments)
    ensures commentId.Invalid? ==> r == Err(BadRequest)
    ensures commentId.Parsed? ==>
              && (r == Err(InternalError) <==> !HasKey(old(db.comments), IdOfComment, commentId.id))
              && (r.Ok? <==> HasKey(old(db.comments), IdOfComment, commentId.id))
    ensures r.Ok? ==>
              && db.comments == DeleteFirst(old(db.comments), KeyIs(IdOfComment, commentId.id))
              && !HasKey(db.comments, IdOfComment, commentId.id)
              && Filter(db.comments, KeyIsNot(IdOfComment, commentId.id))
                 == Filter(old(db.comments), KeyIsNot(IdOfComment, commentId.id))
  {
    if commentId.Invalid? {
      return Err(BadRequest);
    }
    var fi := FirstIndex(db.comments, KeyIs(IdOfComment, commentId.id));
    if fi.None? {
      assert !HasKey(db.comments, IdOfComment, commentId.id) by {
        forall i | 0 <= i < |db.comments| ensures IdOfComment(db.comments[i]) != commentId.id {
          assert !KeyIs(IdOfComment, commentId.id)(db.comments[i]);
        }
      }
      return Err(InternalError);
    }
    assert KeyIs(IdOfComment, commentId.id)(db.comments[fi.value]);
    var comments' := DeleteFirst(db.comments, KeyIs(IdOfComment, commentId.id));
    DeleteFirstByKey(db.comments, IdOfComment, commentId.id);
    DeleteFirstBelow(db.comments, KeyIs(IdOfComment, commentId.id), IdOfComment, db.nextId);
    WithComments(db.users, db.videos, db.comments, db.likes, db.subscriptions, db.tweets, db.playlists,
                 db.nextId, comments');
    db.comments := comments';
    r := Ok(());
  }
}
