/** The playlist handlers. The membership checks of the add and remove
    handlers compare the raw video id text with the stored ids. */
module PlaylistController {
  import opened Base
  import opened Query
  import opened Records
  import opened Store

  /** `Playlist.findById`. */
  function PlaylistById(playlists: seq<Playlist>, id: Id): Option<Playlist>
  {
    First(playlists, KeyIs(IdOfPlaylist, id))
  }

  /** The filter `{name}` or `{description}` of the existence check; an
      undefined value matches the playlists that lack the field. */
  function SameNameOrDescription(name: Option<string>, description: Option<string>): Playlist -> bool
  {
    (p: Playlist) => p.name == name || p.description == description
  }

  /** `createPlaylist`: 400 for a blank name or description, 400 when any
      playlist of any owner has the same name or the same description;
      otherwise an empty playlist owned by the caller is appended. */
  method CreatePlaylist(db: Db, caller: Id, name: Option<string>, description: Option<string>)
    returns (r: Result<Playlist>)
    requires db.Valid()
    modifies db`playlists, db`nextId
    ensures db.Valid()
    ensures r.Err? ==> r.status == BadRequest && db.playlists == old(db.playlists) && db.nextId == old(db.nextId)
    ensures r.Ok? <==>
              !Blank(name) && !Blank(description)
              && forall i :: 0 <= i < |old(db.playlists)| ==>
                   old(db.playlists)[i].name != name && old(db.playlists)[i].description != description
    ensures r.Ok? ==>
              && r.value == Playlist(old(db.nextId), name, description, caller, [])
              && db.playlists == old(db.playlists) + [r.value]
  {
    if Blank(name) || Blank(description) {
      return Err(BadRequest);
    }
    var existing := First(db.playlists, SameNameOrDescription(name, description));
    if existing.Some? {
      return Err(BadRequest);
    }
    assert forall i :: 0 <= i < |db.playlists| ==> db.playlists[i].name != name && db.playlists[i].description != description by {
      forall i | 0 <= i < |db.playlists|
        ensures db.playlists[i].name != name && db.playlists[i].description != description
      {
        assert !SameNameOrDescription(name, description)(db.playlists[i]);
      }
    }
    var p := Playlist(db.nextId, name, description, caller, []);
    db.AddPlaylist(p);
    r := Ok(p);
  }

  function OwnerIs(owner: Id): Playlist -> bool
  {
    (p: Playlist) => p.owner == owner
  }

  /** `getUserPlaylists`: 400 for an invalid id; otherwise exactly the
      playlists the user owns, in collection order; 404 when there is none. */
  function GetUserPlaylists(playlists: seq<Playlist>, userId: IdArg): (r: Result<seq<Playlist>>)
    ensures userId.Invalid? <==> r == Err(BadRequest)
    ensures userId.Parsed? && r.Err? ==> r == Err(NotFound) && forall i :: 0 <= i < |playlists| ==> playlists[i].owner != userId.id
    ensures r.Ok? ==> r.value != [] && r.value == Filter(playlists, OwnerIs(userId.id))
    ensures r.Ok? ==> forall i :: 0 <= i < |r.value| ==> r.value[i] in playlists && r.value[i].owner == userId.id
    ensures r.Ok? ==> forall i :: 0 <= i < |playlists| && playlists[i].owner == userId.id ==> playlists[i] in r.value
  {
    if userId.Invalid? then Err(BadRequest)
    else
      var mine := Filter(playlists, OwnerIs(userId.id));
      assert forall i :: 0 <= i < |playlists| && playlists[i].owner == userId.id ==> playlists[i] in mine by {
        forall i | 0 <= i < |playlists| && playlists[i].owner == userId.id ensures playlists[i] in mine {
          assert OwnerIs(userId.id)(playlists[i]);
        }
      }
      if mine == [] then Err(NotFound) else Ok(mine)
  }

  /** `getPlaylistById`: 400 for an invalid id, 404 when no playlist has it. */
  function GetPlaylistById(playlists: seq<Playlist>, playlistId: IdArg): (r: Result<Playlist>)
    ensures playlistId.Invalid? <==> r == Err(BadRequest)
    ensures playlistId.Parsed? ==>
              (r == Err(NotFound) <==> forall i :: 0 <= i < |playlists| ==> playlists[i].id != playlistId.id)
    ensures r.Ok? ==> r.value in playlists && r.value.id == playlistId.id
  {
    if playlistId.Invalid? then Err(BadRequest)
    else
      var p := PlaylistById(playlists, playlistId.id);
      if p.None? then
        assert forall i :: 0 <= i < |playlists| ==> playlists[i].id != playlistId.id by {
          forall i | 0 <= i < |playlists| ensures playlists[i].id != playlistId.id {
            assert !KeyIs(IdOfPlaylist, playlistId.id)(playlists[i]);
            assert IdOfPlaylist(playlists[i]) == playlists[i].id;
          }
        }
        Err(NotFound)
      else
        assert KeyIs(IdOfPlaylist, playlistId.id)(p.value);
        Ok(p.value)
  }

  /** The refusal of `addVideoToPlaylist` (adding) and
      `removeVideoFromPlaylist` (not adding), checked in this order:
      an invalid id (400), no such playlist (404), a playlist the caller
      does not own (403), no such video (404), the video already in the list
      when adding or not in it when removing (400). None: all checks pass.
      The membership test is `includes` of the raw `videoId` text, which
      equals a stored id only when `canonical` holds: the text is the id's
      lower-case 24-digit hex form. An id `isValidObjectId` accepts in
      another form (upper-case hex, 12 characters) is never found there. */
  function MembershipRefusal(playlists: seq<Playlist>, videos: seq<Video>, caller: Id,
                             playlistId: IdArg, videoId: IdArg, canonical: bool, adding: bool): (r: Option<int>)
    ensures playlistId.Invalid? || videoId.Invalid? ==> r == Some(BadRequest)
    ensures playlistId.Parsed? && videoId.Parsed? ==>
              var p := PlaylistById(playlists, playlistId.id);
              var v := VideoById(videos, videoId.id);
              && (p.None? ==> r == Some(NotFound))
              && (p.Some? && p.value.owner != caller ==> r == Some(Forbidden))
              && (p.Some? && p.value.owner == caller && v.None? ==> r == Some(NotFound))
              && (p.Some? && p.value.owner == caller && v.Some? ==>
                    r == (if (canonical && videoId.id in p.value.videos) == adding then Some(BadRequest) else None))
  {
    if playlistId.Invalid? || videoId.Invalid? then Some(BadRequest)
    else
      var p := PlaylistById(playlists, playlistId.id);
      if p.None? then Some(NotFound)
      else if p.value.owner != caller then Some(Forbidden)
      else if VideoById(videos, videoId.id).None? then Some(NotFound)
      else if (canonical && videoId.id in p.value.videos) == adding then Some(BadRequest)
      else None
  }

  /** `$push: {videos: video}`. */
  function Pushed(video: Id): Playlist -> Playlist
  {
    (p: Playlist) => p.(videos := p.videos + [video])
  }

  /** `$pull: {videos: video}`. */
  function Pulled(video: Id): Playlist -> Playlist
  {
    (p: Playlist) => p.(videos := RemoveAll(p.videos, video))
  }

  /** Replacing the playlist at `i` by one with its id keeps the collection ok. */
  lemma ReplacePlaylist(playlists: seq<Playlist>, n: nat, i: nat, p: Playlist)
    requires PlaylistsOk(playlists, n) && i < |playlists|
    requires p.id == playlists[i].id
    ensures PlaylistsOk(playlists[i := p], n)
  {
    ReplaceKeeps(playlists, IdOfPlaylist, i, p);
    ReplaceBelow(playlists, IdOfPlaylist, i, p, n);
  }

  /** `addVideoToPlaylist`: refused as `MembershipRefusal` says, with no
      change; otherwise the video is appended at the end of the caller's
      playlist and nothing else changes. A canonical id keeps a
      duplicate-free list duplicate-free; any other form of an id already
      there passes the membership test and is appended a second time. */
  method AddVideoToPlaylist(db: Db, caller: Id, playlistId: IdArg, videoId: IdArg, canonical: bool)
    returns (r: Result<Playlist>)
    requires db.Valid()
    modifies db`playlists
    ensures db.Valid()
    ensures var refusal := MembershipRefusal(old(db.playlists), db.videos, caller, playlistId, videoId, canonical, true);
            && (r.Err? <==> refusal.Some?)
            && (r.Err? ==> r.status == refusal.value && db.playlists == old(db.playlists))
    ensures r.Ok? ==>
              var before := PlaylistById(old(db.playlists), playlistId.id).value;
              && db.playlists == UpdateFirst(old(db.playlists), KeyIs(IdOfPlaylist, playlistId.id), Pushed(videoId.id))
              && r.value == Pushed(videoId.id)(before)
              && r.value.videos == before.videos + [videoId.id]
              && multiset(r.value.videos)[videoId.id] == multiset(before.videos)[videoId.id] + 1
              && (canonical ==> videoId.id !in before.videos)
              && (canonical && NoDuplicates(before.videos) ==> NoDuplicates(r.value.videos))
  {
    var refusal := MembershipRefusal(db.playlists, db.videos, caller, playlistId, videoId, canonical, true);
    if refusal.Some? {
      return Err(refusal.value);
    }
    var i := FirstIndex(db.playlists, KeyIs(IdOfPlaylist, playlistId.id)).value;
    var before := db.playlists[i];
    var after := Pushed(videoId.id)(before);
    assert KeyIs(IdOfPlaylist, playlistId.id)(before);
    assert canonical ==> videoId.id !in before.videos;
    ReplacePlaylist(db.playlists, db.nextId, i, after);
    WithPlaylists(db.users, db.videos, db.comments, db.likes, db.subscriptions, db.tweets, db.playlists,
                  db.nextId, db.playlists[i := after]);
    db.playlists := db.playlists[i := after];
    r := Ok(after);
  }

  /** `removeVideoFromPlaylist`: refused as `MembershipRefusal` says, with
      no change (so a non-canonical id is always refused once the playlist
      and the video exist); otherwise every occurrence of the video leaves
      the list, which keeps the order of the others, and nothing else
      changes. */
  method RemoveVideoFromPlaylist(db: Db, caller: Id, playlistId: IdArg, videoId: IdArg, canonical: bool)
    returns (r: Result<Playlist>)
    requires db.Valid()
    modifies db`playlists
    ensures db.Valid()
    ensures var refusal := MembershipRefusal(old(db.playlists), db.videos, caller, playlistId, videoId, canonical, false);
            && (r.Err? <==> refusal.Some?)
            && (r.Err? ==> r.status == refusal.value && db.playlists == old(db.playlists))
    ensures r.Ok? ==>
              var before := PlaylistById(old(db.playlists), playlistId.id).value;
              && canonical && videoId.id in before.videos
              && db.playlists == UpdateFirst(old(db.playlists), KeyIs(IdOfPlaylist, playlistId.id), Pulled(videoId.id))
              && r.value == Pulled(videoId.id)(before)
              && videoId.id !in r.value.videos
              && (forall x :: x in before.videos && x != videoId.id ==> x in r.value.videos)
              && (NoDuplicates(before.videos) ==> NoDuplicates(r.value.videos))
  {
    var refusal := MembershipRefusal(db.playlists, db.videos, caller, playlistId, videoId, canonical, false);
    if refusal.Some? {
      return Err(refusal.value);
    }
    var i := FirstIndex(db.playlists, KeyIs(IdOfPlaylist, playlistId.id)).value;
    var before := db.playlists[i];
    var after := Pulled(videoId.id)(before);
    assert KeyIs(IdOfPlaylist, playlistId.id)(before);
    if NoDuplicates(before.videos) {
      RemoveAllNoDuplicates(before.videos, videoId.id);
    }
    ReplacePlaylist(db.playlists, db.nextId, i, after);
    WithPlaylists(db.users, db.videos, db.comments, db.likes, db.subscriptions, db.tweets, db.playlists,
                  db.nextId, db.playlists[i := after]);
    db.playlists := db.playlists[i := after];
    r := Ok(after);
  }

  /** A video already in the caller's playlist, named by a valid id in a
      form other than the canonical one, passes the add handler's
      membership test and so lands in the list twice, and fails the remove
      handler's; in canonical form it is refused by the first and passes
      the second. */
  lemma NonCanonicalMembership(playlists: seq<Playlist>, videos: seq<Video>, caller: Id, playlist: Id, video: Id)
    requires PlaylistById(playlists, playlist).Some? && PlaylistById(playlists, playlist).value.owner == caller
    requires VideoById(videos, video).Some? && video in PlaylistById(playlists, playlist).value.videos
    ensures MembershipRefusal(playlists, videos, caller, Parsed(playlist), Parsed(video), false, true) == None
    ensures multiset(Pushed(video)(PlaylistById(playlists, playlist).value).videos)[video] >= 2
    ensures MembershipRefusal(playlists, videos, caller, Parsed(playlist), Parsed(video), false, false) == Some(BadRequest)
    ensures MembershipRefusal(playlists, videos, caller, Parsed(playlist), Parsed(video), true, true) == Some(BadRequest)
    ensures MembershipRefusal(playlists, videos, caller, Parsed(playlist), Parsed(video), true, false) == None
  {
    var list: seq<Id> := PlaylistById(playlists, playlist).value.videos;
    var before: multiset<Id> := multiset(list);
    var after: multiset<Id> := multiset(list + [video]);
    assert before[video] >= 1;
    assert after[video] == before[video] + 1;
  }

  /** Adding a video the playlist lacks and then removing it gives back the
      same collection of playlists. */
  lemma AddThenRemove(playlists: seq<Playlist>, playlist: Id, video: Id)
    requires PlaylistById(playlists, playlist).Some? ==> video !in PlaylistById(playlists, playlist).value.videos
    ensures var p := KeyIs(IdOfPlaylist, playlist);
            UpdateFirst(UpdateFirst(playlists, p, Pushed(video)), p, Pulled(video)) == playlists
  {
    var p := KeyIs(IdOfPlaylist, playlist);
    forall q ensures p(Pushed(video)(q)) == p(q) {
      assert Pushed(video)(q).id == q.id;
    }
    UpdateFirstSameIndex(playlists, p, Pushed(video));
    var fi := FirstIndex(playlists, p);
    if fi.Some? {
      var i := fi.value;
      var x := playlists[i];
      PushThenPull(x, video);
      var once := UpdateFirst(playlists, p, Pushed(video));
      var twice := UpdateFirst(once, p, Pulled(video));
      assert twice[i] == Pulled(video)(once[i]) == x;
      assert forall j :: 0 <= j < |playlists| ==> twice[j] == playlists[j];
    }
  }

  /** Pulling a video that was just pushed onto a list lacking it restores the list. */
  lemma PushThenPull(x: Playlist, video: Id)
    requires video !in x.videos
    ensures Pulled(video)(Pushed(video)(x)) == x
  {
    RemoveAllAppend(x.videos, [video], video);
    RemoveAllAbsent(x.videos, video);
    assert RemoveAll([video], video) == [];
  }

  /** `deletePlaylist`: the owner check reads `playlist` before its `const`
      declaration, which throws; so a valid id ends in 500 and an invalid
      one in 400, and no playlist is ever deleted. */
  method DeletePlaylist(db: Db, caller: Id, playlistId: IdArg) returns (r: Result<()>)
    ensures r.Err?
    ensures r.status == if playlistId.Invalid? then BadRequest else InternalError
  {
    if playlistId.Invalid? {
      return Err(BadRequest);
    }
    r := Err(InternalError);
  }

  /** The `$set` of `updatePlaylist`: name and description when given. */
  function Renamed(name: Option<string>, description: Option<string>): Playlist -> Playlist
  {
    (p: Playlist) => p.(name := if name.Some? then name else p.name,
                        description := if description.Some? then description else p.description)
  }

  /** `updatePlaylist`: 400 for an invalid id, a blank name or description,
      or a missing playlist; otherwise name and description change and
      nothing else. Any caller may rename any playlist. */
  method UpdatePlaylist(db: Db, playlistId: IdArg, name: Option<string>, description: Option<string>)
    returns (r: Result<Playlist>)
    requires db.Valid()
    modifies db`playlists
    ensures db.Valid()
    ensures r.Err? ==> r.status == BadRequest && db.playlists == old(db.playlists)
    ensures r.Ok? <==> playlistId.Parsed? && !Blank(name) && !Blank(description)
                       && PlaylistById(old(db.playlists), playlistId.id).Some?
    ensures r.Ok? ==>
              var before := PlaylistById(old(db.playlists), playlistId.id).value;
              && db.playlists == UpdateFirst(old(db.playlists), KeyIs(IdOfPlaylist, playlistId.id), Renamed(name, description))
              && r.value == Renamed(name, description)(before)
              && r.value.id == before.id && r.value.owner == before.owner && r.value.videos == before.videos
  {
    if playlistId.Invalid? {
      return Err(BadRequest);
    }
    if Blank(name) || Blank(description) {
      return Err(BadRequest);
    }
    var fi := FirstIndex(db.playlists, KeyIs(IdOfPlaylist, playlistId.id));
    if fi.None? {
      return Err(BadRequest);
    }
    var i := fi.value;
    var after := Renamed(name, description)(db.playlists[i]);
    ReplacePlaylist(db.playlists, db.nextId, i, after);
    WithPlaylists(db.users, db.videos, db.comments, db.likes, db.subscriptions, db.tweets, db.playlists,
                  db.nextId, db.playlists[i := after]);
    db.playlists := db.playlists[i := after];
    r := Ok(after);
  }
}
