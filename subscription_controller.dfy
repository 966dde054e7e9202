/** The subscription handlers: the toggle of (caller, channel), and the two
    listings, one per direction of the relation. */
module SubscriptionController {
  import opened Base
  import opened Query
  import opened ToggleRelation
  import opened UserModel
  import opened Records
  import opened Store

  /** The subscription collection after `caller` toggles `channel`, where
      `id` is what a created subscription would get. */
  function ToggledSubscriptions(subs: seq<Subscription>, caller: Id, channel: Id, id: Id): seq<Subscription>
  {
    Toggle(subs, SubscriptionKey, (caller, channel), Subscription(id, caller, channel))
  }

  predicate Subscribed(subs: seq<Subscription>, caller: Id, channel: Id)
  {
    HasKey(subs, SubscriptionKey, (caller, channel))
  }

  /** `toggleSubscription`: 400 for an invalid channel id; otherwise
      `findOne({subscriber, channel})`, then `create` or `findOneAndDelete`.
      The answer is `{}` either way, so `r` only says which branch ran
      (true: subscribed). Nothing compares `caller` with the channel. */
  method ToggleSubscription(db: Db, caller: Id, channelId: IdArg) returns (r: Result<bool>)
    requires db.Valid()
    modifies db`subscriptions, db`nextId
    ensures db.Valid()
    ensures channelId.Invalid? ==>
              r == Err(BadRequest) && db.subscriptions == old(db.subscriptions) && db.nextId == old(db.nextId)
    ensures channelId.Parsed? ==>
              && db.subscriptions == ToggledSubscriptions(old(db.subscriptions), caller, channelId.id, old(db.nextId))
              && r == Ok(!Subscribed(old(db.subscriptions), caller, channelId.id))
              && db.nextId == if Subscribed(old(db.subscriptions), caller, channelId.id) then old(db.nextId)
                              else old(db.nextId) + 1
  {
    if channelId.Invalid? {
      return Err(BadRequest);
    }
    var channel := channelId.id;
    var k := (caller, channel);
    var i := FirstIndex(db.subscriptions, KeyIs(SubscriptionKey, k));
    ToggleKeepsUnique(db.subscriptions, SubscriptionKey, k, Subscription(db.nextId, caller, channel));
    if i.None? {
      var id := db.NewId();
      var created := Subscription(id, caller, channel);
      AppendFresh(db.subscriptions, IdOfSubscription, created, id);
      WithSubscriptions(db.users, db.videos, db.comments, db.likes, db.subscriptions, db.tweets, db.playlists,
                        db.nextId, db.subscriptions + [created]);
      db.subscriptions := db.subscriptions + [created];
      r := Ok(true);
    } else {
      var subscriptions' := db.subscriptions[..i.value] + db.subscriptions[i.value + 1..];
      RemoveAtKeeps(db.subscriptions, IdOfSubscription, i.value);
      RemoveAtBelow(db.subscriptions, IdOfSubscription, i.value, db.nextId);
      WithSubscriptions(db.users, db.videos, db.comments, db.likes, db.subscriptions, db.tweets, db.playlists,
                        db.nextId, subscriptions');
      db.subscriptions := subscriptions';
      r := Ok(false);
    }
  }

  /** With at most one subscription per pair, a toggle subscribes when there
      was none (appending exactly one record) and otherwise unsubscribes,
      keeping at most one subscription per pair. */
  lemma ToggleSubscriptionEffect(subs: seq<Subscription>, caller: Id, channel: Id, id: Id)
    requires UniqueKeys(subs, SubscriptionKey)
    ensures !Subscribed(subs, caller, channel) ==>
              ToggledSubscriptions(subs, caller, channel, id) == subs + [Subscription(id, caller, channel)]
    ensures Subscribed(ToggledSubscriptions(subs, caller, channel, id), caller, channel)
            <==> !Subscribed(subs, caller, channel)
    ensures UniqueKeys(ToggledSubscriptions(subs, caller, channel, id), SubscriptionKey)
  {
    var k := (caller, channel);
    var created := Subscription(id, caller, channel);
    ToggleKeepsUnique(subs, SubscriptionKey, k, created);
    UniqueHasOneCopy(subs, SubscriptionKey, k);
    ToggleFlips(subs, SubscriptionKey, k, created);
  }

  /** Two toggles of one pair: from "not subscribed" the collection is
      exactly as before; in every case the other subscriptions are where
      they were and the pair is subscribed as before. */
  lemma ToggleSubscriptionTwice(subs: seq<Subscription>, caller: Id, channel: Id, id1: Id, id2: Id)
    requires UniqueKeys(subs, SubscriptionKey)
    ensures var twice := ToggledSubscriptions(ToggledSubscriptions(subs, caller, channel, id1), caller, channel, id2);
            && (!Subscribed(subs, caller, channel) ==> twice == subs)
            && Others(twice, SubscriptionKey, (caller, channel)) == Others(subs, SubscriptionKey, (caller, channel))
            && (Subscribed(twice, caller, channel) <==> Subscribed(subs, caller, channel))
  {
    var k := (caller, channel);
    var once := ToggledSubscriptions(subs, caller, channel, id1);
    UniqueHasOneCopy(subs, SubscriptionKey, k);
    ToggleTwice(subs, SubscriptionKey, k, Subscription(id1, caller, channel), Subscription(id2, caller, channel));
    HasKeyIffCopies(subs, SubscriptionKey, k);
    HasKeyIffCopies(ToggledSubscriptions(once, caller, channel, id2), SubscriptionKey, k);
    if !Subscribed(subs, caller, channel) {
      ToggleTwiceFromAbsent(subs, SubscriptionKey, k, Subscription(id1, caller, channel),
                            Subscription(id2, caller, channel));
    }
  }

  /** A toggle leaves the subscriptions of every other pair as they were. */
  lemma ToggleSubscriptionIsolated(subs: seq<Subscription>, caller: Id, channel: Id, id: Id,
                                   otherSubscriber: Id, otherChannel: Id)
    requires otherSubscriber != caller || otherChannel != channel
    ensures Filter(ToggledSubscriptions(subs, caller, channel, id), KeyIs(SubscriptionKey, (otherSubscriber, otherChannel)))
         == Filter(subs, KeyIs(SubscriptionKey, (otherSubscriber, otherChannel)))
  {
    ToggleIsolated(subs, SubscriptionKey, (caller, channel), Subscription(id, caller, channel),
                   (otherSubscriber, otherChannel));
  }

  // ---------------------------------------------------------------------
  // The listings

  /** One entry of `getUserChannelSubscribers`, projected to
      `_id, subscriber, channel, subscriberDetails`; the details are absent
      when no user has the subscriber's id. */
  datatype SubscriberEntry = SubscriberEntry(id: Id, subscriber: Id, channel: Id, subscriberDetails: Option<UserContact>)

  /** One entry of `getSubscribedChannels`: `_id, channel, subscriber, channelList`. */
  datatype ChannelEntry = ChannelEntry(id: Id, channel: Id, subscriber: Id, channelList: Option<UserContact>)

  function ChannelIs(channel: Id): Subscription -> bool
  {
    (s: Subscription) => s.channel == channel
  }

  function SubscriberIs(subscriber: Id): Subscription -> bool
  {
    (s: Subscription) => s.subscriber == subscriber
  }

  /** `getUserChannelSubscribers`: 400 for an invalid id; otherwise one entry
      per subscription to the channel, in collection order, each with the
      subscriber's contact card; 404 when there is none. */
  function GetUserChannelSubscribers(subs: seq<Subscription>, users: seq<User>, channelId: IdArg)
    : (r: Result<seq<SubscriberEntry>>)
    ensures channelId.Invalid? ==> r == Err(BadRequest)
    ensures channelId.Parsed? ==>
              var mine := Filter(subs, ChannelIs(channelId.id));
              && (mine == [] <==> r == Err(NotFound))
              && (r.Ok? <==> mine != [])
              && (r.Ok? ==> |r.value| == |mine| && forall i :: 0 <= i < |mine| ==>
                    && r.value[i].id == mine[i].id
                    && r.value[i].subscriber == mine[i].subscriber
                    && r.value[i].channel == channelId.id
                    && r.value[i].subscriberDetails == ContactById(users, mine[i].subscriber))
  {
    if channelId.Invalid? then Err(BadRequest)
    else
      var mine := Filter(subs, ChannelIs(channelId.id));
      if mine == [] then Err(NotFound)
      else
        Ok(seq(|mine|, i requires 0 <= i < |mine| =>
               SubscriberEntry(mine[i].id, mine[i].subscriber, mine[i].channel, ContactById(users, mine[i].subscriber))))
  }

  /** `getSubscribedChannels`, the mirror image: the subscriptions of the
      subscriber, each with the channel's contact card; 404 when none. */
  function GetSubscribedChannels(subs: seq<Subscription>, users: seq<User>, subscriberId: IdArg)
    : (r: Result<seq<ChannelEntry>>)
    ensures subscriberId.Invalid? ==> r == Err(BadRequest)
    ensures subscriberId.Parsed? ==>
              var mine := Filter(subs, SubscriberIs(subscriberId.id));
              && (mine == [] <==> r == Err(NotFound))
              && (r.Ok? <==> mine != [])
              && (r.Ok? ==> |r.value| == |mine| && forall i :: 0 <= i < |mine| ==>
                    && r.value[i].id == mine[i].id
                    && r.value[i].channel == mine[i].channel
                    && r.value[i].subscriber == subscriberId.id
                    && r.value[i].channelList == ContactById(users, mine[i].channel))
  {
    if subscriberId.Invalid? then Err(BadRequest)
    else
      var mine := Filter(subs, SubscriberIs(subscriberId.id));
      if mine == [] then Err(NotFound)
      else
        Ok(seq(|mine|, i requires 0 <= i < |mine| =>
               ChannelEntry(mine[i].id, mine[i].channel, mine[i].subscriber, ContactById(users, mine[i].channel))))
  }

  /** Every subscription to the channel is listed, and in a store whose
      user ids are distinct its entry carries the subscriber's own card. */
  lemma SubscribersComplete(subs: seq<Subscription>, users: seq<User>, channel: Id, j: nat, u: nat)
    requires j < |subs| && subs[j].channel == channel
    requires u < |users| && users[u].id == subs[j].subscriber && UniqueKeys(users, IdOfUser)
    ensures var r := GetUserChannelSubscribers(subs, users, Parsed(channel));
            r.Ok? && exists i :: 0 <= i < |r.value| && r.value[i].id == subs[j].id
                                 && r.value[i].subscriberDetails == Some(ContactOf(users[u]))
  {
    var mine := Filter(subs, ChannelIs(channel));
    assert ChannelIs(channel)(subs[j]);
    assert subs[j] in mine;
    var i :| 0 <= i < |mine| && mine[i] == subs[j];
    LookupsFindUser(users, u);
    var r := GetUserChannelSubscribers(subs, users, Parsed(channel));
    assert r.value[i].id == subs[j].id;
  }

  /** Every subscription of the subscriber is listed, with the channel's card. */
  lemma ChannelsComplete(subs: seq<Subscription>, users: seq<User>, subscriber: Id, j: nat, u: nat)
    requires j < |subs| && subs[j].subscriber == subscriber
    requires u < |users| && users[u].id == subs[j].channel && UniqueKeys(users, IdOfUser)
    ensures var r := GetSubscribedChannels(subs, users, Parsed(subscriber));
            r.Ok? && exists i :: 0 <= i < |r.value| && r.value[i].id == subs[j].id
                                 && r.value[i].channelList == Some(ContactOf(users[u]))
  {
    var mine := Filter(subs, SubscriberIs(subscriber));
    assert SubscriberIs(subscriber)(subs[j]);
    assert subs[j] in mine;
    var i :| 0 <= i < |mine| && mine[i] == subs[j];
    LookupsFindUser(users, u);
    var r := GetSubscribedChannels(subs, users, Parsed(subscriber));
    assert r.value[i].id == subs[j].id;
  }
}
