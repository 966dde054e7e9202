/** The document store the handlers work on: one collection per model, each
    in insertion order (the natural order `find` and `aggregate` return when
    there is no `$sort`), and the allocator of new document ids. */
module Store {
  import opened Base
  import opened Query
  import opened UserModel
  import opened Records

  /** What every collection keeps true between requests. */
  predicate StoreOk(users: seq<User>, videos: seq<Video>, comments: seq<Comment>, likes: seq<Like>,
                    subscriptions: seq<Subscription>, tweets: seq<Tweet>, playlists: seq<Playlist>, nextId: nat)
  {
    && UsersOk(users, nextId)
    && Identified(videos, IdOfVideo, nextId)
    && Identified(comments, IdOfComment, nextId)
    && LikesOk(likes, nextId)
    && SubscriptionsOk(subscriptions, nextId)
    && Identified(tweets, IdOfTweet, nextId)
    && PlaylistsOk(playlists, nextId)
  }

  /** Every id below a bound is below a larger one. */
  lemma Raise<R>(s: seq<R>, key: R -> nat, n: nat, m: nat)
    requires Identified(s, key, n) && n <= m
    ensures Identified(s, key, m)
  {
  }

  /** The other collections stay ok when the allocator moves up. */
  lemma RaiseAll(users: seq<User>, videos: seq<Video>, comments: seq<Comment>, likes: seq<Like>,
                 subscriptions: seq<Subscription>, tweets: seq<Tweet>, playlists: seq<Playlist>, n: nat, m: nat)
    requires StoreOk(users, videos, comments, likes, subscriptions, tweets, playlists, n) && n <= m
    ensures StoreOk(users, videos, comments, likes, subscriptions, tweets, playlists, m)
  {
    Raise(users, IdOfUser, n, m);
    Raise(videos, IdOfVideo, n, m);
    Raise(comments, IdOfComment, n, m);
    Raise(likes, IdOfLike, n, m);
    Raise(subscriptions, IdOfSubscription, n, m);
    Raise(tweets, IdOfTweet, n, m);
    Raise(playlists, IdOfPlaylist, n, m);
  }

  /** Replacing one collection by one that keeps its own invariant keeps
      the store ok. */
  lemma WithUsers(users: seq<User>, videos: seq<Video>, comments: seq<Comment>, likes: seq<Like>,
                  subscriptions: seq<Subscription>, tweets: seq<Tweet>, playlists: seq<Playlist>, n: nat,
                  users': seq<User>)
    requires StoreOk(users, videos, comments, likes, subscriptions, tweets, playlists, n)
    requires UsersOk(users', n)
    ensures StoreOk(users', videos, comments, likes, subscriptions, tweets, playlists, n)
  {
  }

  lemma WithVideos(users: seq<User>, videos: seq<Video>, comments: seq<Comment>, likes: seq<Like>,
                   subscriptions: seq<Subscription>, tweets: seq<Tweet>, playlists: seq<Playlist>, n: nat,
                   videos': seq<Video>)
    requires StoreOk(users, videos, comments, likes, subscriptions, tweets, playlists, n)
    requires Identified(videos', IdOfVideo, n)
    ensures StoreOk(users, videos', comments, likes, subscriptions, tweets, playlists, n)
  {
  }

  lemma WithComments(users: seq<User>, videos: seq<Video>, comments: seq<Comment>, likes: seq<Like>,
                     subscriptions: seq<Subscription>, tweets: seq<Tweet>, playlists: seq<Playlist>, n: nat,
                     comments': seq<Comment>)
    requires StoreOk(users, videos, comments, likes, subscriptions, tweets, playlists, n)
    requires Identified(comments', IdOfComment, n)
    ensures StoreOk(users, videos, comments', likes, subscriptions, tweets, playlists, n)
  {
  }

  lemma WithLikes(users: seq<User>, videos: seq<Video>, comments: seq<Comment>, likes: seq<Like>,
                  subscriptions: seq<Subscription>, tweets: seq<Tweet>, playlists: seq<Playlist>, n: nat,
                  likes': seq<Like>)
    requires StoreOk(users, videos, comments, likes, subscriptions, tweets, playlists, n)
    requires LikesOk(likes', n)
    ensures StoreOk(users, videos, comments, likes', subscriptions, tweets, playlists, n)
  {
  }

  lemma WithSubscriptions(users: seq<User>, videos: seq<Video>, comments: seq<Comment>, likes: seq<Like>,
                          subscriptions: seq<Subscription>, tweets: seq<Tweet>, playlists: seq<Playlist>, n: nat,
                          subscriptions': seq<Subscription>)
    requires StoreOk(users, videos, comments, likes, subscriptions, tweets, playlists, n)
    requires SubscriptionsOk(subscriptions', n)
    ensures StoreOk(users, videos, comments, likes, subscriptions', tweets, playlists, n)
  {
  }

  lemma WithTweets(users: seq<User>, videos: seq<Video>, comments: seq<Comment>, likes: seq<Like>,
                   subscriptions: seq<Subscription>, tweets: seq<Tweet>, playlists: seq<Playlist>, n: nat,
                   tweets': seq<Tweet>)
    requires StoreOk(users, videos, comments, likes, subscriptions, tweets, playlists, n)
    requires Identified(tweets', IdOfTweet, n)
    ensures StoreOk(users, videos, comments, likes, subscriptions, tweets', playlists, n)
  {
  }

  lemma WithPlaylists(users: seq<User>, videos: seq<Video>, comments: seq<Comment>, likes: seq<Like>,
                      subscriptions: seq<Subscription>, tweets: seq<Tweet>, playlists: seq<Playlist>, n: nat,
                      playlists': seq<Playlist>)
    requires StoreOk(users, videos, comments, likes, subscriptions, tweets, playlists, n)
    requires PlaylistsOk(playlists', n)
    ensures StoreOk(users, videos, comments, likes, subscriptions, tweets, playlists', n)
  {
  }

  class Db {
    var users: seq<User>
    var videos: seq<Video>
    var comments: seq<Comment>
    var likes: seq<Like>
    var subscriptions: seq<Subscription>
    var tweets: seq<Tweet>
    var playlists: seq<Playlist>
    var nextId: nat

    ghost predicate Valid()
      reads this
    {
      StoreOk(users, videos, comments, likes, subscriptions, tweets, playlists, nextId)
    }

    /** An empty store. */
    constructor ()
      ensures Valid()
      ensures users == [] && videos == [] && comments == [] && likes == []
      ensures subscriptions == [] && tweets == [] && playlists == [] && nextId == 0
    {
      users, videos, comments, likes := [], [], [], [];
      subscriptions, tweets, playlists := [], [], [];
      nextId := 0;
    }

    /** A new ObjectId, different from every id handed out before; every
        collection stays ok. */
    method NewId() returns (id: Id)
      requires Valid()
      modifies this`nextId
      ensures Valid()
      ensures id == old(nextId) && nextId == old(nextId) + 1
    {
      RaiseAll(users, videos, comments, likes, subscriptions, tweets, playlists, nextId, nextId + 1);
      id := nextId;
      nextId := nextId + 1;
    }

    /** `Video.create`: the video, under the next id, goes at the end. */
    method AddVideo(v: Video)
      requires Valid() && v.id == nextId
      modifies this`videos, this`nextId
      ensures Valid()
      ensures videos == old(videos) + [v] && nextId == old(nextId) + 1
    {
      AppendFresh(videos, IdOfVideo, v, nextId);
      RaiseAll(users, videos, comments, likes, subscriptions, tweets, playlists, nextId, nextId + 1);
      WithVideos(users, videos, comments, likes, subscriptions, tweets, playlists, nextId + 1, videos + [v]);
      videos, nextId := videos + [v], nextId + 1;
    }

    /** `Comment.create`. */
    method AddComment(c: Comment)
      requires Valid() && c.id == nextId
      modifies this`comments, this`nextId
      ensures Valid()
      ensures comments == old(comments) + [c] && nextId == old(nextId) + 1
    {
      AppendFresh(comments, IdOfComment, c, nextId);
      RaiseAll(users, videos, comments, likes, subscriptions, tweets, playlists, nextId, nextId + 1);
      WithComments(users, videos, comments, likes, subscriptions, tweets, playlists, nextId + 1, comments + [c]);
      comments, nextId := comments + [c], nextId + 1;
    }

    /** `Tweet.create`. */
    method AddTweet(t: Tweet)
      requires Valid() && t.id == nextId
      modifies this`tweets, this`nextId
      ensures Valid()
      ensures tweets == old(tweets) + [t] && nextId == old(nextId) + 1
    {
      AppendFresh(tweets, IdOfTweet, t, nextId);
      RaiseAll(users, videos, comments, likes, subscriptions, tweets, playlists, nextId, nextId + 1);
      WithTweets(users, videos, comments, likes, subscriptions, tweets, playlists, nextId + 1, tweets + [t]);
      tweets, nextId := tweets + [t], nextId + 1;
    }

    /** `Playlist.create`. */
    method AddPlaylist(p: Playlist)
      requires Valid() && p.id == nextId
      modifies this`playlists, this`nextId
      ensures Valid()
      ensures playlists == old(playlists) + [p] && nextId == old(nextId) + 1
    {
      AppendPlaylistKeepsOk(playlists, nextId, p);
      RaiseAll(users, videos, comments, likes, subscriptions, tweets, playlists, nextId, nextId + 1);
      WithPlaylists(users, videos, comments, likes, subscriptions, tweets, playlists, nextId + 1, playlists + [p]);
      playlists, nextId := playlists + [p], nextId + 1;
    }

    /** `User.create` of a user that keeps the user collection ok, under
        the next id. */
    method AddUser(u: User)
      requires Valid() && UsersOk(users + [u], nextId + 1)
      modifies this`users, this`nextId
      ensures Valid()
      ensures users == old(users) + [u] && nextId == old(nextId) + 1
    {
      RaiseAll(users, videos, comments, likes, subscriptions, tweets, playlists, nextId, nextId + 1);
      WithUsers(users, videos, comments, likes, subscriptions, tweets, playlists, nextId + 1, users + [u]);
      users, nextId := users + [u], nextId + 1;
    }

    /** `Video.findByIdAndUpdate(id, ...)` with an update `f` that keeps
        the id: the earliest video with that id becomes `f` of it. */
    method UpdateVideo(id: Id, f: Video -> Video)
      requires Valid() && forall v :: f(v).id == v.id
      modifies this`videos
      ensures Valid()
      ensures videos == UpdateFirst(old(videos), KeyIs(IdOfVideo, id), f)
    {
      var videos' := UpdateFirst(videos, KeyIs(IdOfVideo, id), f);
      assert forall v :: IdOfVideo(f(v)) == IdOfVideo(v);
      UpdateFirstKeepsKeys(videos, KeyIs(IdOfVideo, id), f, IdOfVideo, nextId);
      WithVideos(users, videos, comments, likes, subscriptions, tweets, playlists, nextId, videos');
      videos := videos';
    }

    /** `User.findByIdAndUpdate(id, ...)` with an update `f` that leaves
        the fields the invariants constrain alone. */
    method UpdateUser(id: Id, f: User -> User)
      requires Valid() && forall u :: SameIdentity(u, f(u))
      modifies this`users
      ensures Valid()
      ensures users == UpdateFirst(old(users), KeyIs(IdOfUser, id), f)
    {
      var users' := UpdateFirst(users, KeyIs(IdOfUser, id), f);
      UpdateUserKeepsOk(users, nextId, KeyIs(IdOfUser, id), f);
      WithUsers(users, videos, comments, likes, subscriptions, tweets, playlists, nextId, users');
      users := users';
    }
  }
}
