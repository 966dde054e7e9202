/** The registration and login handlers and the token helper they share. */
module UserController {
  import opened Base
  import opened Query
  import opened UserModel
  import opened Cloudinary
  import opened Store

  /** The fields of the registration body; each may be absent. */
  datatype RegisterBody = RegisterBody(
    fullName: Option<string>, email: Option<string>, userName: Option<string>, password: Option<string>)

  /** What the upload middleware left in `req.files`: nothing at all, or
      the path of the first `avatar` file (absent when that field is
      missing) and of the first `coverImage` file. */
  datatype Files = NoFiles | Files(avatar: Option<string>, coverImage: Option<string>)

  /** Some field of the body is present and blank. */
  predicate AnyBlank(b: RegisterBody)
  {
    Blank(b.fullName) || Blank(b.email) || Blank(b.userName) || Blank(b.password)
  }

  /** The filter `{$or: [{userName}, {email}]}`. The schema's `lowercase`
      and `trim` options also apply to the filter's values; an absent value
      matches only users without the field, and every stored user has both. */
  function Clashes(userName: Option<string>, email: Option<string>): User -> bool
  {
    (u: User) =>
      || (userName.Some? && u.userName == Normalize(userName.value))
      || (email.Some? && u.email == Normalize(email.value))
  }

  function CoverPath(files: Files): Option<string>
  {
    if files.Files? then files.coverImage else None
  }

  function AvatarPath(files: Files): Option<string>
  {
    if files.Files? then files.avatar else None
  }

  /** The checks of `registerUser`, in order, with the status of the first
      that fails: a blank field (400), a user with that userName or that
      email (409), `req.files` without `avatar` (500: indexing `undefined`
      throws), no avatar path (400), a failed avatar upload (400), an
      absent field (500: `userName.toLowerCase()` throws, or a required
      path of the schema is missing) or an avatar url that is empty (500). */
  function Refusal(users: seq<User>, b: RegisterBody, files: Files, avatarOutcome: Option<Asset>): (r: Option<int>)
    ensures AnyBlank(b) ==> r == Some(BadRequest)
    ensures !AnyBlank(b) && (exists i :: 0 <= i < |users| && Clashes(b.userName, b.email)(users[i])) ==>
              r == Some(Conflict)
    ensures r.Some? ==> r.value in {BadRequest, Conflict, InternalError}
    ensures !AnyBlank(b) && (forall i :: 0 <= i < |users| ==> !Clashes(b.userName, b.email)(users[i])) ==>
              && (files.Files? && files.avatar.None? ==> r == Some(InternalError))
              && (!(files.Files? && files.avatar.None?) && (Falsy(AvatarPath(files)) || avatarOutcome.None?) ==>
                    r == Some(BadRequest))
              && (!Falsy(AvatarPath(files)) && avatarOutcome.Some?
                  && (|| b.userName.None? || b.email.None? || b.fullName.None? || b.password.None?
                      || avatarOutcome.value.url == "") ==>
                    r == Some(InternalError))
    ensures r.None? <==>
              && !AnyBlank(b)
              && (forall i :: 0 <= i < |users| ==> !Clashes(b.userName, b.email)(users[i]))
              && files.Files? && !Falsy(files.avatar) && avatarOutcome.Some?
              && b.userName.Some? && b.email.Some? && b.fullName.Some? && b.password.Some?
              && avatarOutcome.value.url != ""
  {
    if AnyBlank(b) then Some(BadRequest)
    else if First(users, Clashes(b.userName, b.email)).Some? then Some(Conflict)
    else if files.Files? && files.avatar.None? then Some(InternalError)
    else if Falsy(AvatarPath(files)) then Some(BadRequest)
    else if UploadOnCloudinary(AvatarPath(files), avatarOutcome).None? then Some(BadRequest)
    else if || b.userName.None? || b.email.None? || b.fullName.None? || b.password.None?
            || UploadOnCloudinary(AvatarPath(files), avatarOutcome).value.url == ""
    then Some(InternalError)
    else None
  }

  /** The user `registerUser` would create with id `id`, or the status it
      fails with, given the answers of the blob store to the two uploads:
      refused as `Refusal` says; otherwise a user that fits the collection
      (next id, well-formed, userName and email unused), with the contents
      `NewUserStored` gives. */
  function NewUser(users: seq<User>, b: RegisterBody, files: Files,
                   avatarOutcome: Option<Asset>, coverOutcome: Option<Asset>, id: Id): (r: Result<User>)
    ensures r.Err? <==> Refusal(users, b, files, avatarOutcome).Some?
    ensures r.Err? ==> r.status == Refusal(users, b, files, avatarOutcome).value
    ensures r.Ok? ==> r.value.id == id && WellFormed(r.value)
    ensures r.Ok? ==> forall i :: 0 <= i < |users| ==>
              users[i].userName != r.value.userName && users[i].email != r.value.email
  {
    var refusal := Refusal(users, b, files, avatarOutcome);
    if refusal.Some? then Err(refusal.value)
    else
      var avatar := UploadOnCloudinary(AvatarPath(files), avatarOutcome).value;
      var cover := UploadOnCloudinary(CoverPath(files), coverOutcome);
      StoredFieldsNormal(b.userName.value, b.email.value, b.fullName.value, b.password.value);
      assert forall i :: 0 <= i < |users| ==> !Clashes(b.userName, b.email)(users[i]);
      Ok(User(id, Normalize(Lower(b.userName.value)), Normalize(b.email.value), Trim(b.fullName.value),
              avatar.url, Some(if cover.Some? && cover.value.url != "" then cover.value.url else ""),
              [], b.password.value, None))
  }

  /** What a successful registration stores: the userName and the email
      lowercased and trimmed, the fullName trimmed, the password as given,
      the avatar's url, the cover's url or "" when there is none, an empty
      watch history and no refresh token. */
  lemma NewUserStored(users: seq<User>, b: RegisterBody, files: Files,
                      avatarOutcome: Option<Asset>, coverOutcome: Option<Asset>, id: Id)
    requires NewUser(users, b, files, avatarOutcome, coverOutcome, id).Ok?
    ensures var u := NewUser(users, b, files, avatarOutcome, coverOutcome, id).value;
            && b.userName.Some? && b.email.Some? && b.fullName.Some? && b.password.Some?
            && avatarOutcome.Some?
            && u.userName == Normalize(b.userName.value)
            && u.email == Normalize(b.email.value)
            && u.fullName == Trim(b.fullName.value)
            && u.password == b.password.value
            && u.watchHistory == [] && u.refereshToken == None
            && u.avatar == avatarOutcome.value.url
            && u.coverImage == Some(if !Falsy(CoverPath(files)) && coverOutcome.Some? then coverOutcome.value.url else "")
  {
    StoredFieldsNormal(b.userName.value, b.email.value, b.fullName.value, b.password.value);
  }

  /** The stored forms of the non-blank registration fields are in normal
      form and not empty. */
  lemma StoredFieldsNormal(userName: string, email: string, fullName: string, password: string)
    requires Trim(userName) != "" && Trim(email) != "" && Trim(fullName) != "" && Trim(password) != ""
    ensures Normalize(Lower(userName)) == Normalize(userName)
    ensures Normalize(userName) != "" && Normalize(Normalize(userName)) == Normalize(userName)
    ensures Normalize(email) != "" && Normalize(Normalize(email)) == Normalize(email)
    ensures Trim(fullName) != "" && Trim(Trim(fullName)) == Trim(fullName)
    ensures password != ""
  {
    NormalizeIdempotent(userName);
    NormalizeIdempotent(email);
    TrimIdempotent(fullName);
  }

  /** `registerUser`: refused with the status `NewUser` gives, creating
      nothing; otherwise the new user is appended and returned without its
      password. */
  method RegisterUser(db: Db, b: RegisterBody, files: Files,
                      avatarOutcome: Option<Asset>, coverOutcome: Option<Asset>) returns (r: Result<PublicUser>)
    requires db.Valid()
    modifies db`users, db`nextId
    ensures db.Valid()
    ensures var created := NewUser(old(db.users), b, files, avatarOutcome, coverOutcome, old(db.nextId));
            && (r.Err? <==> created.Err?)
            && (created.Err? ==> r == Err(created.status) && db.users == old(db.users) && db.nextId == old(db.nextId))
            && (created.Ok? ==>
                  && r == Ok(PublicOf(created.value))
                  && db.users == old(db.users) + [created.value]
                  && db.nextId == old(db.nextId) + 1)
  {
    var created := NewUser(db.users, b, files, avatarOutcome, coverOutcome, db.nextId);
    if created.Err? {
      return Err(created.status);
    }
    AddUserKeepsOk(db.users, db.nextId, created.value);
    db.AddUser(created.value);
    r := Ok(PublicOf(created.value));
  }

  datatype Tokens = Tokens(accessToken: string, refreshToken: string)

  /** `generateAccessAndRefreshTokens`: the two tokens of the user with
      that id (the signing is the parameters `access` and `refresh`). The
      handler assigns `user.refreshToken`, a path the schema does not have
      (it spells it `refereshToken`), so `save` writes nothing: the method
      changes no collection. A missing user throws (500). */
  method GenerateAccessAndRefreshTokens(db: Db, userId: Id, access: User -> string, refresh: User -> string)
    returns (r: Result<Tokens>)
    ensures UserById(db.users, userId).None? <==> r == Err(InternalError)
    ensures UserById(db.users, userId).Some? ==>
              var u := UserById(db.users, userId).value;
              r == Ok(Tokens(access(u), refresh(u))) && u.id == userId
  {
    var u := UserById(db.users, userId);
    if u.None? {
      return Err(InternalError);
    }
    assert KeyIs(IdOfUser, userId)(u.value);
    r := Ok(Tokens(access(u.value), refresh(u.value)));
  }

  datatype LoggedIn = LoggedIn(user: PublicUser, tokens: Tokens)

  /** `loginUser`, checked in this order: neither email nor userName (400),
      no user with that userName or that email (404), a password the
      comparison refuses (401); otherwise the earliest matching user
      without its password, and its tokens. */
  function LoginUser(users: seq<User>, email: Option<string>, userName: Option<string>, password: Option<string>,
                     passwordOk: (User, Option<string>) -> bool, access: User -> string, refresh: User -> string)
    : (r: Result<LoggedIn>)
    ensures r == Err(BadRequest) <==> Falsy(email) && Falsy(userName)
    ensures r == Err(NotFound) <==>
              !(Falsy(email) && Falsy(userName))
              && forall i :: 0 <= i < |users| ==> !Clashes(userName, email)(users[i])
    ensures r.Err? ==> r.status in {BadRequest, NotFound, Unauthorized}
    ensures r.Ok? || r == Err(Unauthorized) ==>
              var u := First(users, Clashes(userName, email)).value;
              && u in users && Clashes(userName, email)(u)
              && (r == Err(Unauthorized) <==> !passwordOk(u, password))
              && (r.Ok? ==> r.value == LoggedIn(PublicOf(u), Tokens(access(u), refresh(u))))
  {
    if Falsy(email) && Falsy(userName) then Err(BadRequest)
    else
      var found := First(users, Clashes(userName, email));
      if found.None? then Err(NotFound)
      else if !passwordOk(found.value, password) then Err(Unauthorized)
      else Ok(LoggedIn(PublicOf(found.value), Tokens(access(found.value), refresh(found.value))))
  }

  /** A user appended under a userName no other user has is the one a
      login by that userName (as typed, before normalisation) finds. */
  lemma LoginFindsNewUser(users: seq<User>, u: User, userName: string, password: Option<string>,
                          passwordOk: (User, Option<string>) -> bool, access: User -> string, refresh: User -> string)
    requires userName != "" && u.userName == Normalize(userName) && passwordOk(u, password)
    requires forall i :: 0 <= i < |users| ==> users[i].userName != u.userName
    ensures LoginUser(users + [u], None, Some(userName), password, passwordOk, access, refresh)
            == Ok(LoggedIn(PublicOf(u), Tokens(access(u), refresh(u))))
  {
    var p := Clashes(Some(userName), None);
    forall i | 0 <= i < |users| ensures !p(users[i]) {
      assert users[i].userName != u.userName;
    }
    assert p(u);
    FirstAfterMisses(users, u, p);
  }

  /** A user who has just registered can log in under the userName they
      registered with, in whatever case and padding they typed it. */
  lemma LoginAfterRegister(users: seq<User>, n: nat, b: RegisterBody, files: Files,
                           avatarOutcome: Option<Asset>, coverOutcome: Option<Asset>,
                           passwordOk: (User, Option<string>) -> bool, access: User -> string, refresh: User -> string)
    requires NewUser(users, b, files, avatarOutcome, coverOutcome, n).Ok?
    requires passwordOk(NewUser(users, b, files, avatarOutcome, coverOutcome, n).value, b.password)
    ensures var u := NewUser(users, b, files, avatarOutcome, coverOutcome, n).value;
            LoginUser(users + [u], None, b.userName, b.password, passwordOk, access, refresh)
            == Ok(LoggedIn(PublicOf(u), Tokens(access(u), refresh(u))))
  {
    var u := NewUser(users, b, files, avatarOutcome, coverOutcome, n).value;
    NewUserStored(users, b, files, avatarOutcome, coverOutcome, n);
    assert !Blank(b.userName);
    assert b.userName.value != "" by {
      assert Trim(b.userName.value) != "";
    }
    LoginFindsNewUser(users, u, b.userName.value, b.password, passwordOk, access, refresh);
  }
}
