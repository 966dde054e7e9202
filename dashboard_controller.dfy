/** The dashboard handlers: the channel totals of the caller, and the
    published-video listing. Neither writes anything. */
module DashboardController {
  import opened Base
  import opened Query
  import opened Records
  import opened VideoController
  import opened SubscriptionController

  /** The `status` object of `getChannelStats`. */
  datatype ChannelStats = ChannelStats(totalVideoViews: nat, totalSubscribers: nat, totalVideos: nat, totalLikes: nat)

  function OwnsVideo(owner: Id): Video -> bool
  {
    (v: Video) => v.owner == owner
  }

  function ViewsOf(v: Video): nat { v.views }

  /** The `$size` of the likes looked up for a video. */
  function LikesOf(likes: seq<Like>): Video -> nat
  {
    (v: Video) => Count(likes, LikeOfVideo(v.id))
  }

  /** `getChannelStats`: over the caller's videos, published or not, the
      `$sum` of their views and of their like counts and their `$count`;
      the `$count` of the subscriptions to the caller's channel. An empty
      `$group` or `$count` gives no document, which `|| 0` turns into 0. */
  function GetChannelStats(videos: seq<Video>, likes: seq<Like>, subscriptions: seq<Subscription>, caller: Id)
    : (r: ChannelStats)
    ensures r.totalVideos == 0 <==> forall i :: 0 <= i < |videos| ==> videos[i].owner != caller
    ensures r.totalSubscribers == 0 <==> forall i :: 0 <= i < |subscriptions| ==> subscriptions[i].channel != caller
    ensures r.totalVideos == 0 ==> r.totalVideoViews == 0 && r.totalLikes == 0
    ensures forall i :: 0 <= i < |videos| && videos[i].owner == caller ==>
              r.totalVideos > 0 && r.totalVideoViews >= videos[i].views
  {
    var mine := Filter(videos, OwnsVideo(caller));
    CountZeroIffNone(videos, OwnsVideo(caller));
    CountZeroIffNone(subscriptions, ChannelIs(caller));
    forall i | 0 <= i < |videos| && videos[i].owner == caller
      ensures Sum(mine, ViewsOf) >= videos[i].views
    {
      assert OwnsVideo(caller)(videos[i]);
      SumAtLeast(mine, ViewsOf, videos[i]);
    }
    ChannelStats(Sum(mine, ViewsOf), Count(subscriptions, ChannelIs(caller)), |mine|, Sum(mine, LikesOf(likes)))
  }

  /** A sum is at least each of its terms. */
  lemma {:induction false} SumAtLeast(s: seq<Video>, f: Video -> nat, x: Video)
    requires x in s
    ensures Sum(s, f) >= f(x)
  {
    if s[0] != x {
      SumAtLeast(s[1..], f, x);
    }
  }

  /** A video the caller publishes adds one video and its views and likes
      to the totals; a video of another owner changes none of them. */
  lemma StatsAfterPublish(videos: seq<Video>, likes: seq<Like>, subscriptions: seq<Subscription>,
                          caller: Id, v: Video)
    ensures var before := GetChannelStats(videos, likes, subscriptions, caller);
            var after := GetChannelStats(videos + [v], likes, subscriptions, caller);
            && after.totalSubscribers == before.totalSubscribers
            && (v.owner == caller ==>
                  && after.totalVideos == before.totalVideos + 1
                  && after.totalVideoViews == before.totalVideoViews + v.views
                  && after.totalLikes == before.totalLikes + Count(likes, LikeOfVideo(v.id)))
            && (v.owner != caller ==> after == before)
  {
    FilterSnoc(videos, v, OwnsVideo(caller), ViewsOf);
    FilterSnoc(videos, v, OwnsVideo(caller), LikesOf(likes));
  }

  /** Reading one of the caller's videos (which counts a view) raises the
      caller's total views by one and leaves the other totals; reading
      any other video changes none. */
  lemma StatsAfterView(videos: seq<Video>, likes: seq<Like>, subscriptions: seq<Subscription>,
                       caller: Id, video: Id)
    ensures var before := GetChannelStats(videos, likes, subscriptions, caller);
            var after := GetChannelStats(UpdateFirst(videos, KeyIs(IdOfVideo, video), Viewed), likes, subscriptions, caller);
            var read := VideoById(videos, video);
            && after.totalVideos == before.totalVideos
            && after.totalLikes == before.totalLikes
            && after.totalSubscribers == before.totalSubscribers
            && after.totalVideoViews == before.totalVideoViews + (if read.Some? && read.value.owner == caller then 1 else 0)
  {
    var p := KeyIs(IdOfVideo, video);
    var fi := FirstIndex(videos, p);
    if fi.Some? {
      var i := fi.value;
      var x := Viewed(videos[i]);
      assert UpdateFirst(videos, p, Viewed) == videos[i := x];
      FilterReplace(videos, i, x, OwnsVideo(caller), ViewsOf);
      FilterReplace(videos, i, x, OwnsVideo(caller), LikesOf(likes));
    }
  }

  /** Toggling a subscription to the caller's channel raises the caller's
      subscriber total by one when it subscribes and lowers it by one when
      it unsubscribes; toggling a subscription to another channel leaves
      the total alone. No other total moves. */
  lemma StatsAfterSubscriptionToggle(videos: seq<Video>, likes: seq<Like>, subscriptions: seq<Subscription>,
                                     caller: Id, subscriber: Id, channel: Id, id: Id)
    ensures var before := GetChannelStats(videos, likes, subscriptions, caller);
            var after := GetChannelStats(videos, likes, ToggledSubscriptions(subscriptions, subscriber, channel, id), caller);
            && after.totalVideos == before.totalVideos
            && after.totalVideoViews == before.totalVideoViews
            && after.totalLikes == before.totalLikes
            && after.totalSubscribers ==
                 if channel != caller then before.totalSubscribers
                 else if Subscribed(subscriptions, subscriber, channel) then before.totalSubscribers - 1
                 else before.totalSubscribers + 1
  {
    var k := (subscriber, channel);
    var p := ChannelIs(caller);
    var created := Subscription(id, subscriber, channel);
    match FirstIndex(subscriptions, KeyIs(SubscriptionKey, k))
    case None =>
      assert !Subscribed(subscriptions, subscriber, channel) by {
        forall i | 0 <= i < |subscriptions| ensures SubscriptionKey(subscriptions[i]) != k {
          assert !KeyIs(SubscriptionKey, k)(subscriptions[i]);
        }
      }
      FilterAppend(subscriptions, [created], p);
      FilterOne(created, p);
    case Some(i) =>
      var pre, x, post := subscriptions[..i], subscriptions[i], subscriptions[i + 1..];
      assert subscriptions == pre + [x] + post;
      assert KeyIs(SubscriptionKey, k)(x);
      assert x.channel == channel;
      assert Subscribed(subscriptions, subscriber, channel);
      FilterThree(pre, x, post, p);
      FilterAppend(pre, post, p);
  }

  /** `getChannelVideos`: the same pipeline as `getAllVideos`, with its
      500 without a `sortBy`. The caller takes no part in it: the videos of
      every owner are listed. */
  function GetChannelVideos(videos: seq<Video>, caller: Id, query: Option<string>, sortBy: Option<string>,
                            sortType: Option<string>, page: int, limit: int,
                            matches: (string, string) -> bool, rank: (string, Video) -> int): (r: Result<seq<Video>>)
    ensures r == Err(InternalError) <==> Falsy(sortBy)
    ensures r.Ok? <==> !Falsy(sortBy)
    ensures r.Ok? ==> |r.value| <= PageSize(limit)
    ensures r.Ok? ==> forall i :: 0 <= i < |r.value| ==>
              r.value[i] in videos && r.value[i].isPublished && SearchHit(r.value[i], query, matches)
  {
    GetAllVideos(videos, query, sortBy, sortType, page, limit, matches, rank)
  }

  /** A published video of someone else is on the caller's channel page. */
  lemma ChannelVideosOfOthers(matches: (string, string) -> bool, rank: (string, Video) -> int)
    ensures var v := Video(1, 2, None, None, None, None, None, 0, true);
            GetChannelVideos([v], 3, None, Some("views"), None, 1, 10, matches, rank) == Ok([v])
  {
    var v := Video(1, 2, None, None, None, None, None, 0, true);
    var keep := PublishedHit(None, matches);
    assert keep(v);
    assert Filter([v], keep) == [v] by {
      assert [v][1..] == [];
    }
    var l := Listing([v], keep, SortKey("views", 1), rank);
    assert |l| == |multiset(l)| == 1;
    assert l[0] in multiset(l);
    assert l == [v];
    assert Window(l, 0, 10) == [v];
  }
}
