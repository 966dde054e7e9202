/** The documents of the other collections, with the fields the handlers
    read and write, and what each collection keeps true of them. */
module Records {
  import opened Base
  import opened Query

  /** A stored video. A field the upload left undefined is `None`. */
  datatype Video = Video(
    id: Id,
    owner: Id,
    videoFile: Option<string>,
    thumbnail: Option<string>,
    title: Option<string>,
    description: Option<string>,
    duration: Option<real>,
    views: nat,
    isPublished: bool)

  /** The values a new video takes for the fields `Video.create` leaves out. */
  const InitialViews: nat := 0
  const PublishedOnCreate: bool := true

  datatype Comment = Comment(id: Id, content: string, video: Id, owner: Id)

  /** A like sets exactly one of the fields `video`, `comment`, `tweet`. */
  datatype LikeTarget = OnVideo(video: Id) | OnComment(comment: Id) | OnTweet(tweet: Id)

  datatype Like = Like(id: Id, target: LikeTarget, likedBy: Id, createdAt: int)

  datatype Subscription = Subscription(id: Id, subscriber: Id, channel: Id)

  datatype Tweet = Tweet(id: Id, content: string, owner: Id)

  datatype Playlist = Playlist(
    id: Id,
    name: Option<string>,
    description: Option<string>,
    owner: Id,
    videos: seq<Id>)

  function IdOfVideo(v: Video): Id { v.id }
  function IdOfComment(c: Comment): Id { c.id }
  function IdOfLike(l: Like): Id { l.id }
  function IdOfSubscription(s: Subscription): Id { s.id }
  function IdOfTweet(t: Tweet): Id { t.id }
  function IdOfPlaylist(p: Playlist): Id { p.id }

  /** The pair a like toggle looks up: what is liked, and by whom. */
  function LikeKey(l: Like): (LikeTarget, Id) { (l.target, l.likedBy) }

  /** The pair a subscription toggle looks up. */
  function SubscriptionKey(s: Subscription): (Id, Id) { (s.subscriber, s.channel) }

  predicate LikesOk(likes: seq<Like>, nextId: nat)
  {
    Identified(likes, IdOfLike, nextId) && UniqueKeys(likes, LikeKey)
  }

  predicate SubscriptionsOk(subscriptions: seq<Subscription>, nextId: nat)
  {
    Identified(subscriptions, IdOfSubscription, nextId) && UniqueKeys(subscriptions, SubscriptionKey)
  }

  /** Distinct ids below the allocator. A playlist's list may hold an id
      twice: the add handler's membership test can miss a stored id. */
  predicate PlaylistsOk(playlists: seq<Playlist>, nextId: nat)
  {
    Identified(playlists, IdOfPlaylist, nextId)
  }

  /** A playlist under the next id keeps the collection ok. */
  lemma AppendPlaylistKeepsOk(playlists: seq<Playlist>, n: nat, p: Playlist)
    requires PlaylistsOk(playlists, n) && p.id == n
    ensures PlaylistsOk(playlists + [p], n + 1)
  {
    AppendFresh(playlists, IdOfPlaylist, p, n);
  }

  /** `Video.findById`: the earliest video with the id, if any. */
  function VideoById(videos: seq<Video>, id: Id): (r: Option<Video>)
    ensures r.None? <==> forall i :: 0 <= i < |videos| ==> videos[i].id != id
    ensures r.Some? ==> r.value in videos && r.value.id == id
  {
    var f := First(videos, KeyIs(IdOfVideo, id));
    if f.None? then
      assert forall i :: 0 <= i < |videos| ==> videos[i].id != id by {
        forall i | 0 <= i < |videos| ensures videos[i].id != id {
          assert !KeyIs(IdOfVideo, id)(videos[i]);
        }
      }
      f
    else
      assert KeyIs(IdOfVideo, id)(f.value);
      f
  }
}
