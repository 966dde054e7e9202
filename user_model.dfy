/** The User document of the user schema, the projections of it that the
    handlers send back, and the field invariants the schema enforces. */
module UserModel {
  import opened Base
  import opened Query

  /** A stored user. The schema's token field is spelled `refereshToken`. */
  datatype User = User(
    id: Id,
    userName: string,
    email: string,
    fullName: string,
    avatar: string,
    coverImage: Option<string>,
    watchHistory: seq<Id>,
    password: string,
    refereshToken: Option<string>)

  /** What the schema guarantees of a stored user: the required strings are
      non-empty (a `required` String rejects ""), userName and email are kept
      trimmed and lower-cased, and fullName trimmed. */
  predicate WellFormed(u: User)
  {
    && u.userName != "" && Normalize(u.userName) == u.userName
    && u.email != "" && Normalize(u.email) == u.email
    && u.fullName != "" && Trim(u.fullName) == u.fullName
    && u.avatar != ""
    && u.password != ""
  }

  function IdOfUser(u: User): Id { u.id }
  function UserNameOf(u: User): string { u.userName }
  function EmailOf(u: User): string { u.email }

  /** The user collection: ids distinct and below the allocator, every user
      well-formed, and the two `unique` indexes on userName and email. */
  predicate UsersOk(users: seq<User>, nextId: nat)
  {
    && Identified(users, IdOfUser, nextId)
    && (forall i :: 0 <= i < |users| ==> WellFormed(users[i]))
    && UniqueKeys(users, UserNameOf) && UniqueKeys(users, EmailOf)
  }

  /** Appending a well-formed user with the next id and a userName and an
      email no stored user has keeps the collection ok. */
  lemma AddUserKeepsOk(users: seq<User>, n: nat, u: User)
    requires UsersOk(users, n) && u.id == n && WellFormed(u)
    requires forall i :: 0 <= i < |users| ==> users[i].userName != u.userName && users[i].email != u.email
    ensures UsersOk(users + [u], n + 1)
  {
    var t := users + [u];
    assert Identified(t, IdOfUser, n + 1) by {
      AppendFresh(users, IdOfUser, u, n);
    }
    assert UniqueKeys(t, UserNameOf) by {
      assert forall i :: 0 <= i < |users| ==> UserNameOf(users[i]) != UserNameOf(u);
      AppendNewKey(users, UserNameOf, u);
    }
    assert UniqueKeys(t, EmailOf) by {
      assert forall i :: 0 <= i < |users| ==> EmailOf(users[i]) != EmailOf(u);
      AppendNewKey(users, EmailOf, u);
    }
    forall i | 0 <= i < |t| ensures WellFormed(t[i]) {
      if i < |users| {
        assert t[i] == users[i];
      }
    }
  }

  /** The owner projection `{userName, fullName, avatar}` (with `_id`). */
  datatype UserCard = UserCard(id: Id, userName: string, fullName: string, avatar: string)

  /** The subscriber and channel projection
      `{fullName, userName, email, avatar, coverImage}` (with `_id`). */
  datatype UserContact = UserContact(
    id: Id, fullName: string, userName: string, email: string, avatar: string,
    coverImage: Option<string>)

  /** A user as `select("-password -refreshToken")` returns it: the password
      is gone; the excluded name `refreshToken` is not a schema path, so the
      stored `refereshToken` is still there. */
  datatype PublicUser = PublicUser(
    id: Id, userName: string, email: string, fullName: string, avatar: string,
    coverImage: Option<string>, watchHistory: seq<Id>, refereshToken: Option<string>)

  function CardOf(u: User): UserCard
  {
    UserCard(u.id, u.userName, u.fullName, u.avatar)
  }

  function ContactOf(u: User): UserContact
  {
    UserContact(u.id, u.fullName, u.userName, u.email, u.avatar, u.coverImage)
  }

  function PublicOf(u: User): PublicUser
  {
    PublicUser(u.id, u.userName, u.email, u.fullName, u.avatar, u.coverImage,
               u.watchHistory, u.refereshToken)
  }

  /** `$lookup` of the users with `_id` equal to `id`, reduced by `$first`. */
  function UserById(users: seq<User>, id: Id): Option<User>
  {
    First(users, KeyIs(IdOfUser, id))
  }

  /** The owner lookup `{userName, fullName, avatar}` followed by `$first`:
      the card of the first user with that id, absent when there is none. */
  function CardById(users: seq<User>, id: Id): (r: Option<UserCard>)
    ensures r.Some? <==> exists i :: 0 <= i < |users| && users[i].id == id
    ensures r.Some? ==> exists i :: 0 <= i < |users| && users[i].id == id && r.value == CardOf(users[i])
  {
    var f := FirstIndex(users, KeyIs(IdOfUser, id));
    if f.None? then
      assert forall i :: 0 <= i < |users| ==> users[i].id != id by {
        forall i | 0 <= i < |users| ensures users[i].id != id {
          assert !KeyIs(IdOfUser, id)(users[i]);
        }
      }
      None
    else
      assert KeyIs(IdOfUser, id)(users[f.value]);
      Some(CardOf(users[f.value]))
  }

  /** The contact projection of the first user with that id. */
  function ContactById(users: seq<User>, id: Id): (r: Option<UserContact>)
    ensures r.Some? <==> exists i :: 0 <= i < |users| && users[i].id == id
    ensures r.Some? ==> exists i :: 0 <= i < |users| && users[i].id == id && r.value == ContactOf(users[i])
  {
    var f := FirstIndex(users, KeyIs(IdOfUser, id));
    if f.None? then
      assert forall i :: 0 <= i < |users| ==> users[i].id != id by {
        forall i | 0 <= i < |users| ensures users[i].id != id {
          assert !KeyIs(IdOfUser, id)(users[i]);
        }
      }
      None
    else
      assert KeyIs(IdOfUser, id)(users[f.value]);
      Some(ContactOf(users[f.value]))
  }

  /** In a store whose user ids are distinct, the lookups find the user. */
  lemma LookupsFindUser(users: seq<User>, i: nat)
    requires i < |users| && UniqueKeys(users, IdOfUser)
    ensures UserById(users, users[i].id) == Some(users[i])
    ensures CardById(users, users[i].id) == Some(CardOf(users[i]))
    ensures ContactById(users, users[i].id) == Some(ContactOf(users[i]))
  {
    FirstOfUnique(users, IdOfUser, i);
  }

  /** `b` differs from `a` at most in the fields no invariant constrains
      (coverImage, watchHistory, the token). */
  predicate SameIdentity(a: User, b: User)
  {
    && b.id == a.id && b.userName == a.userName && b.email == a.email
    && b.fullName == a.fullName && b.avatar == a.avatar && b.password == a.password
  }

  /** An update of one user that keeps its identity keeps the collection's
      invariants. */
  lemma UpdateUserKeepsOk(users: seq<User>, nextId: nat, p: User -> bool, f: User -> User)
    requires UsersOk(users, nextId)
    requires forall x :: SameIdentity(x, f(x))
    ensures UsersOk(UpdateFirst(users, p, f), nextId)
  {
    UpdateFirstKeepsKeys(users, p, f, IdOfUser, nextId);
    UpdateFirstKeepsUnique(users, p, f, UserNameOf);
    UpdateFirstKeepsUnique(users, p, f, EmailOf);
    var r := UpdateFirst(users, p, f);
    forall i | 0 <= i < |r| ensures WellFormed(r[i]) {
      assert r[i] == users[i] || r[i] == f(users[i]);
      assert SameIdentity(users[i], f(users[i]));
    }
  }
}
