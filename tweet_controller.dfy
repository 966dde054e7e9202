/** The tweet handlers: create, the per-user listing, update and delete.
    Neither update nor delete looks at who owns the tweet. */
module TweetController {
  import opened Base
  import opened Query
  import opened UserModel
  import opened Records
  import opened Store

  /** `createTweet`: 400 for a missing or empty content; otherwise a tweet
      by the caller is appended. (The handler's null check tests the
      handler itself, which is never null, so it never fires.) */
  method CreateTweet(db: Db, caller: Id, content: Option<string>) returns (r: Result<Tweet>)
    requires db.Valid()
    modifies db`tweets, db`nextId
    ensures db.Valid()
    ensures Falsy(content) <==> r == Err(BadRequest)
    ensures r.Err? ==> db.tweets == old(db.tweets) && db.nextId == old(db.nextId)
    ensures r.Ok? ==>
              && r.value == Tweet(old(db.nextId), content.value, caller)
              && db.tweets == old(db.tweets) + [r.value]
              && db.nextId == old(db.nextId) + 1
  {
    if Falsy(content) {
      return Err(BadRequest);
    }
    var t := Tweet(db.nextId, content.value, caller);
    db.AddTweet(t);
    r := Ok(t);
  }

  /** One entry of `getUserTweets`: `_id, content` and `tweetsUserDetails`,
      the owner's `{fullName, userName, avatar}`. */
  datatype TweetEntry = TweetEntry(id: Id, content: string, tweetsUserDetails: Option<UserCard>)

  function OwnedBy(owner: Id): Tweet -> bool
  {
    (t: Tweet) => t.owner == owner
  }

  function TweetEntryOf(users: seq<User>, t: Tweet): TweetEntry
  {
    TweetEntry(t.id, t.content, CardById(users, t.owner))
  }

  /** The projection of each matched tweet, position by position. */
  function TweetEntries(users: seq<User>, mine: seq<Tweet>): (r: seq<TweetEntry>)
    ensures |r| == |mine| && forall i :: 0 <= i < |mine| ==> r[i] == TweetEntryOf(users, mine[i])
  {
    seq(|mine|, i requires 0 <= i < |mine| => TweetEntryOf(users, mine[i]))
  }

  /** `getUserTweets`: 400 for an invalid id, 400 when the user has no
      tweet; otherwise one entry per tweet of the user, in collection
      order, every one carrying the user's own card. */
  function GetUserTweets(tweets: seq<Tweet>, users: seq<User>, userId: IdArg): (r: Result<seq<TweetEntry>>)
    ensures r.Err? ==> r == Err(BadRequest)
    ensures r.Ok? <==> userId.Parsed? && Count(tweets, OwnedBy(userId.id)) > 0
    ensures r.Ok? ==> |r.value| == Count(tweets, OwnedBy(userId.id))
    ensures r.Ok? ==> forall i :: 0 <= i < |r.value| ==> r.value[i].tweetsUserDetails == CardById(users, userId.id)
    ensures r.Ok? ==> r.value == TweetEntries(users, Filter(tweets, OwnedBy(userId.id)))
  {
    if userId.Invalid? then Err(BadRequest)
    else
      var mine := Filter(tweets, OwnedBy(userId.id));
      if mine == [] then Err(BadRequest)
      else Ok(TweetEntries(users, mine))
  }

  /** Every listed entry is a stored tweet of that user. */
  lemma UserTweetsSound(tweets: seq<Tweet>, users: seq<User>, owner: Id, i: nat)
    requires var r := GetUserTweets(tweets, users, Parsed(owner));
             r.Ok? && i < |r.value|
    ensures var e := GetUserTweets(tweets, users, Parsed(owner)).value[i];
            exists j :: 0 <= j < |tweets| && tweets[j].owner == owner
                        && tweets[j].id == e.id && tweets[j].content == e.content
  {
    var mine := Filter(tweets, OwnedBy(owner));
    assert mine[i] in tweets && OwnedBy(owner)(mine[i]);
    var j :| 0 <= j < |tweets| && tweets[j] == mine[i];
  }

  /** Every tweet of the user is listed. */
  lemma UserTweetsComplete(tweets: seq<Tweet>, users: seq<User>, owner: Id, j: nat)
    requires j < |tweets| && tweets[j].owner == owner
    ensures var r := GetUserTweets(tweets, users, Parsed(owner));
            r.Ok? && TweetEntryOf(users, tweets[j]) in r.value
  {
    var mine := Filter(tweets, OwnedBy(owner));
    assert OwnedBy(owner)(tweets[j]);
    assert tweets[j] in mine;
    var k :| 0 <= k < |mine| && mine[k] == tweets[j];
    assert TweetEntries(users, mine)[k] == TweetEntryOf(users, tweets[j]);
  }

  /** The `$set: {content}` of `updateTweet`. */
  function Retold(content: string): Tweet -> Tweet
  {
    (t: Tweet) => t.(content := content)
  }

  /** `updateTweet`: the id and the content are checked (400) before the
      store is read; a missing tweet is 404; otherwise only the content
      changes. */
  method UpdateTweet(db: Db, tweetId: IdArg, content: Option<string>) returns (r: Result<Tweet>)
    requires db.Valid()
    modifies db`tweets
    ensures db.Valid()
    ensures r.Err? ==> db.tweets == old(db.tweets)
    ensures tweetId.Invalid? || Falsy(content) <==> r == Err(BadRequest)
    ensures tweetId.Parsed? && !Falsy(content) ==>
              var before := First(old(db.tweets), KeyIs(IdOfTweet, tweetId.id));
              && (before.None? <==> r == Err(NotFound))
              && (before.Some? ==>
                    && r == Ok(Retold(content.value)(before.value))
                    && r.value.id == tweetId.id && r.value.content == content.value
                    && r.value.owner == before.value.owner
                    && db.tweets == UpdateFirst(old(db.tweets), KeyIs(IdOfTweet, tweetId.id), Retold(content.value)))
  {
    if tweetId.Invalid? || Falsy(content) {
      return Err(BadRequest);
    }
    var fi := FirstIndex(db.tweets, KeyIs(IdOfTweet, tweetId.id));
    if fi.None? {
      return Err(NotFound);
    }
    var i := fi.value;
    var after := Retold(content.value)(db.tweets[i]);
    assert KeyIs(IdOfTweet, tweetId.id)(db.tweets[i]);
    ReplaceKeeps(db.tweets, IdOfTweet, i, after);
    ReplaceBelow(db.tweets, IdOfTweet, i, after, db.nextId);
    WithTweets(db.users, db.videos, db.comments, db.likes, db.subscriptions, db.tweets, db.playlists,
               db.nextId, db.tweets[i := after]);
    db.tweets := db.tweets[i := after];
    r := Ok(after);
  }

  /** Repeating an edit with the same content changes nothing more. */
  lemma UpdateTweetIdempotent(tweets: seq<Tweet>, tweet: Id, content: string)
    ensures var p := KeyIs(IdOfTweet, tweet);
            UpdateFirst(UpdateFirst(tweets, p, Retold(content)), p, Retold(content))
            == UpdateFirst(tweets, p, Retold(content))
  {
    UpdateFirstIdempotent(tweets, KeyIs(IdOfTweet, tweet), Retold(content));
  }

  /** `deleteTweet`: 400 for an invalid id or a missing tweet; otherwise
      exactly that tweet is removed and every other one stays, in order. */
  method DeleteTweet(db: Db, tweetId: IdArg) returns (r: Result<()>)
    requires db.Valid()
    modifies db`tweets
    ensures db.Valid()
    ensures r.Err? ==> r == Err(BadRequest) && db.tweets == old(db.tweets)
    ensures r.Ok? <==> tweetId.Parsed? && HasKey(old(db.tweets), IdOfTweet, tweetId.id)
    ensures r.Ok? ==>
              && db.tweets == DeleteFirst(old(db.tweets), KeyIs(IdOfTweet, tweetId.id))
              && !HasKey(db.tweets, IdOfTweet, tweetId.id)
              && Filter(db.tweets, KeyIsNot(IdOfTweet, tweetId.id)) == Filter(old(db.tweets), KeyIsNot(IdOfTweet, tweetId.id))
  {
    if tweetId.Invalid? {
      return Err(BadRequest);
    }
    var fi := FirstIndex(db.tweets, KeyIs(IdOfTweet, tweetId.id));
    if fi.None? {
      assert !HasKey(db.tweets, IdOfTweet, tweetId.id) by {
        forall i | 0 <= i < |db.tweets| ensures IdOfTweet(db.tweets[i]) != tweetId.id {
          assert !KeyIs(IdOfTweet, tweetId.id)(db.tweets[i]);
        }
      }
      return Err(BadRequest);
    }
    assert KeyIs(IdOfTweet, tweetId.id)(db.tweets[fi.value]);
    var tweets' := DeleteFirst(db.tweets, KeyIs(IdOfTweet, tweetId.id));
    DeleteFirstByKey(db.tweets, IdOfTweet, tweetId.id);
    DeleteFirstBelow(db.tweets, KeyIs(IdOfTweet, tweetId.id), IdOfTweet, db.nextId);
    WithTweets(db.users, db.videos, db.comments, db.likes, db.subscriptions, db.tweets, db.playlists,
               db.nextId, tweets');
    db.tweets := tweets';
    r := Ok(());
  }
}
