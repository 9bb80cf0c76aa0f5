/** The account endpoints: registration, login and the current user
    (`authController`), and the profile endpoints (`userController`).
    bcrypt and JWT are oracles: a registration or password change receives the
    new hash as a parameter, `matches(password, hash)` stands for
    `bcrypt.compare`, and a token is represented by the payload it signs. */
module Accounts {
  import opened Wrappers
  import opened Text
  import opened Tables
  import opened Records
  import opened Access
  import UserModel

  /** The user object the auth endpoints send: no password hash, no
      timestamps. */
  datatype UserView = UserView(
    id: nat, username: string, email: string, role: string,
    storageLimit: int, storageUsed: int, profilePictureUrl: string)

  function ViewOf(u: User): UserView {
    UserView(u.id, u.username, u.email, u.role, u.storageLimit, u.storageUsed, u.profilePictureUrl)
  }

  /** A signed-in answer: the token's payload `{ id, role }` and the user. */
  datatype Session = Session(payload: Principal, user: UserView)

  datatype AuthReply = AuthReply(status: nat, session: Option<Session>, users: Table<User>)

  /** The session issued for a user row: the payload carries exactly its id
      and role. */
  function SessionOf(u: User): (s: Session)
    ensures s.payload.id == u.id && s.payload.role == u.role && s.user.id == u.id
  {
    Session(Principal(u.id, u.role), ViewOf(u))
  }

  /** Nothing the auth endpoints send depends on the password hash. */
  lemma SessionIgnoresHash(u: User, hash: string)
    ensures SessionOf(u.(passwordHash := hash)) == SessionOf(u)
  {
  }

  // ---------------------------------------------------------------------------
  // registerUser
  // ---------------------------------------------------------------------------

  /** The role of a new account: administrator for the very first one. */
  function RoleForNewUser(t: Table<User>): (r: string)
    ensures r == AdminRole <==> |t.rows| == 0
    ensures r == AdminRole || r == UserRole
  {
    if UserModel.Count(t) == 0 then AdminRole else UserRole
  }

  /** `registerUser`: the row is created with the role above, and the session
      of the new row is sent with 201. */
  function RegisterUser(t: Table<User>, username: string, email: string, passwordHash: string, now: int)
    : (r: AuthReply)
    ensures r.status == CreatedStatus && r.session.Some?
    ensures r.session.value.payload == Principal(t.nextId, if |t.rows| == 0 then AdminRole else UserRole)
    ensures r.users.rows.Keys == t.rows.Keys + {t.nextId} && r.users.nextId == t.nextId + 1
    ensures var u := r.users.rows[t.nextId];
            && u.username == username && u.email == email && u.passwordHash == passwordHash
            && u.storageUsed == 0 && u.storageLimit == UserModel.DefaultStorageLimit
            && r.session.value.user == ViewOf(u)
    ensures forall k :: k in t.rows && k != t.nextId ==> r.users.rows[k] == t.rows[k]
  {
    var (users, u) := UserModel.Create(t, username, email, passwordHash, Some(RoleForNewUser(t)), now);
    AuthReply(CreatedStatus, Some(SessionOf(u)), users)
  }

  /** Only the first account is an administrator: once one exists, the next
      registration gets the ordinary role. */
  lemma OnlyFirstRegistrationIsAdmin(t: Table<User>, a: string, b: string, c: string, d: string,
                                     e: string, f: string, now: int, later: int)
    requires Bounded(t)
    ensures var first := RegisterUser(t, a, b, c, now);
            && (first.session.value.payload.role == AdminRole <==> |t.rows| == 0)
            && RegisterUser(first.users, d, e, f, later).session.value.payload.role == UserRole
  {
    var first := RegisterUser(t, a, b, c, now);
    assert t.nextId in first.users.rows;
  }

  // ---------------------------------------------------------------------------
  // loginUser
  // ---------------------------------------------------------------------------

  /** The login lookup: by email when the identifier contains '@', by username
      otherwise. */
  function FindForLogin(t: Table<User>, identifier: string): (r: Option<User>)
    ensures r.Some? ==> r.value in t.rows.Values
    ensures r.Some? && '@' in identifier ==> r.value.email == identifier
    ensures r.Some? && '@' !in identifier ==> r.value.username == identifier
  {
    if '@' in identifier then UserModel.FindByEmail(t, identifier) else UserModel.FindByUsername(t, identifier)
  }

  /** `loginUser`: 404 for an unknown identifier, 401 when the password does
      not match the stored hash, otherwise the user's session. */
  function LoginUser(t: Table<User>, identifier: string, password: string, matches: (string, string) -> bool)
    : (r: AuthReply)
    ensures r.users == t
    ensures r.status == NotFound <==> FindForLogin(t, identifier).None?
    ensures r.status == Unauthorized <==>
              FindForLogin(t, identifier).Some? && !matches(password, FindForLogin(t, identifier).value.passwordHash)
    ensures r.status == Ok <==>
              FindForLogin(t, identifier).Some? && matches(password, FindForLogin(t, identifier).value.passwordHash)
    ensures r.session.Some? <==> r.status == Ok
    ensures r.status == Ok ==> r.session == Some(SessionOf(FindForLogin(t, identifier).value))
  {
    match FindForLogin(t, identifier)
    case None => AuthReply(NotFound, None, t)
    case Some(u) =>
      if !matches(password, u.passwordHash) then AuthReply(Unauthorized, None, t)
      else AuthReply(Ok, Some(SessionOf(u)), t)
  }

  /** No two rows share a username or an email (the table's unique
      constraints). */
  ghost predicate UniqueNames(t: Table<User>) {
    forall i, j :: i in t.rows && j in t.rows && i != j ==>
      t.rows[i].username != t.rows[j].username && t.rows[i].email != t.rows[j].email
  }

  /** With unique names, the lookup finds exactly the row that has the
      identifier as its email (with '@') or username (without). */
  lemma FindForLoginUnique(t: Table<User>, identifier: string, k: nat)
    requires UsersKeyed(t) && UniqueNames(t) && k in t.rows
    requires if '@' in identifier then t.rows[k].email == identifier else t.rows[k].username == identifier
    ensures FindForLogin(t, identifier) == Some(t.rows[k])
  {
    var r := FindForLogin(t, identifier);
    assert r.Some?;
    var j :| j in t.rows && t.rows[j] == r.value;
  }

  /** A fresh registration can sign in with its email (when it holds an '@')
      and with its username (when it does not), exactly when the password
      matches the hash it registered. */
  lemma RegisterThenLogin(t: Table<User>, username: string, email: string, passwordHash: string, now: int,
                          identifier: string, password: string, matches: (string, string) -> bool)
    requires UsersKeyed(t) && UniqueNames(t)
    requires forall k :: k in t.rows ==> t.rows[k].username != username && t.rows[k].email != email
    requires (identifier == email && '@' in email) || (identifier == username && '@' !in username)
    ensures var reg := RegisterUser(t, username, email, passwordHash, now);
            var login := LoginUser(reg.users, identifier, password, matches);
            && (login.status == Ok <==> matches(password, passwordHash))
            && (login.status == Ok ==> login.session == reg.session)
  {
    var reg := RegisterUser(t, username, email, passwordHash, now);
    var t' := reg.users;
    assert UsersKeyed(t') && UniqueNames(t');
    FindForLoginUnique(t', identifier, t.nextId);
  }

  // ---------------------------------------------------------------------------
  // getMe and getProfile
  // ---------------------------------------------------------------------------

  /** `getMe`: the caller's row as the auth endpoints show it. */
  function GetMe(t: Table<User>, caller: Principal): (r: (nat, Option<UserView>))
    ensures r.0 == NotFound <==> caller.id !in t.rows
    ensures r.0 == Ok <==> caller.id in t.rows
    ensures r.1.Some? <==> r.0 == Ok
    ensures r.1.Some? ==> r.1.value.id == t.rows[caller.id].id && r.1.value == ViewOf(t.rows[caller.id])
  {
    match UserModel.FindById(t, caller.id)
    case None => (NotFound, None)
    case Some(u) => (Ok, Some(ViewOf(u)))
  }

  /** Every column of a `users` row except `password_hash`. */
  datatype Profile = Profile(
    id: nat, username: string, email: string, role: string, storageLimit: int, storageUsed: int,
    profilePictureUrl: string, createdAt: int, updatedAt: int)

  function ProfileOf(u: User): Profile {
    Profile(u.id, u.username, u.email, u.role, u.storageLimit, u.storageUsed,
            u.profilePictureUrl, u.createdAt, u.updatedAt)
  }

  /** The profile is the row minus its hash: two rows have the same profile
      exactly when they differ at most in their hashes. */
  lemma ProfileIsRowWithoutHash(u: User, v: User)
    ensures ProfileOf(u) == ProfileOf(v) <==> u.(passwordHash := "") == v.(passwordHash := "")
  {
    if ProfileOf(u) == ProfileOf(v) {
      assert u.(passwordHash := "") == v.(passwordHash := "");
    }
  }

  /** `getProfile`: 404 for a missing row, otherwise its profile. */
  function GetProfile(t: Table<User>, caller: Principal): (r: (nat, Option<Profile>))
    ensures r.0 == NotFound <==> caller.id !in t.rows
    ensures r.0 == Ok <==> caller.id in t.rows
    ensures r.1.Some? <==> r.0 == Ok
    ensures r.1.Some? ==> r.1.value == ProfileOf(t.rows[caller.id])
  {
    match UserModel.FindById(t, caller.id)
    case None => (NotFound, None)
    case Some(u) => (Ok, Some(ProfileOf(u)))
  }

  // ---------------------------------------------------------------------------
  // updateProfile
  // ---------------------------------------------------------------------------

  /** The lookup `updateProfile` makes found a row, and not the caller's. */
  predicate TakenByOther(found: Option<User>, caller: Principal) {
    found.Some? && found.value.id != caller.id
  }

  datatype ProfileReply = ProfileReply(status: nat, users: Table<User>, body: Option<UserModel.ProfileRow>)

  /** `updateProfile`: 400 when the username, then when the email, belongs to
      another row; only then the write. */
  function UpdateProfile(t: Table<User>, caller: Principal, username: string, email: string, now: int)
    : (r: ProfileReply)
    ensures r.status == BadRequest <==>
              TakenByOther(UserModel.FindByUsername(t, username), caller)
              || TakenByOther(UserModel.FindByEmail(t, email), caller)
    ensures r.status == BadRequest ==> r.users == t && r.body.None?
    ensures r.status != BadRequest ==>
              && r.status == Ok
              && (r.users, r.body) == UserModel.UpdateProfile(t, caller.id, username, email, now)
  {
    if TakenByOther(UserModel.FindByUsername(t, username), caller) then ProfileReply(BadRequest, t, None)
    else if TakenByOther(UserModel.FindByEmail(t, email), caller) then ProfileReply(BadRequest, t, None)
    else
      var (users, row) := UserModel.UpdateProfile(t, caller.id, username, email, now);
      ProfileReply(Ok, users, row)
  }

  /** With unique names, looking up a row's own username or email finds that
      row. */
  lemma HolderIsFound(t: Table<User>, k: nat)
    requires UsersKeyed(t) && UniqueNames(t) && k in t.rows
    ensures UserModel.FindByUsername(t, t.rows[k].username) == Some(t.rows[k])
    ensures UserModel.FindByEmail(t, t.rows[k].email) == Some(t.rows[k])
  {
    var byName := UserModel.FindByUsername(t, t.rows[k].username);
    var byEmail := UserModel.FindByEmail(t, t.rows[k].email);
    assert byName.Some? && byEmail.Some?;
    var m :| m in t.rows && t.rows[m] == byName.value;
    var n :| n in t.rows && t.rows[n] == byEmail.value;
  }

  /** The checks keep usernames and emails unique: an update that goes
      through never gives the caller a name or email another row has. */
  lemma UpdateProfileKeepsUnique(t: Table<User>, caller: Principal, username: string, email: string, now: int)
    requires UsersKeyed(t) && UniqueNames(t)
    ensures UniqueNames(UpdateProfile(t, caller, username, email, now).users)
  {
    var r := UpdateProfile(t, caller, username, email, now);
    if r.status == Ok && caller.id in t.rows {
      var t' := r.users;
      forall i, j | i in t'.rows && j in t'.rows && i != j
        ensures t'.rows[i].username != t'.rows[j].username && t'.rows[i].email != t'.rows[j].email
      {
        if i == caller.id || j == caller.id {
          var other := if i == caller.id then j else i;
          HolderIsFound(t, other);
        }
      }
    }
  }

  // ---------------------------------------------------------------------------
  // changePassword
  // ---------------------------------------------------------------------------

  /** `changePassword`: 404 for a missing row, 400 when the current password
      does not match; otherwise the new hash is stored. */
  function ChangePassword(t: Table<User>, caller: Principal, currentPassword: string, newHash: string,
                          matches: (string, string) -> bool, now: int): (r: (nat, Table<User>))
    ensures r.0 == NotFound <==> caller.id !in t.rows
    ensures r.0 == BadRequest <==> caller.id in t.rows && !matches(currentPassword, t.rows[caller.id].passwordHash)
    ensures r.0 == Ok <==> caller.id in t.rows && matches(currentPassword, t.rows[caller.id].passwordHash)
    ensures r.0 != Ok ==> r.1 == t
    ensures r.0 == Ok ==> r.1 == UserModel.UpdatePassword(t, caller.id, newHash, now).0
  {
    match UserModel.FindById(t, caller.id)
    case None => (NotFound, t)
    case Some(u) =>
      if !matches(currentPassword, u.passwordHash) then (BadRequest, t)
      else (Ok, UserModel.UpdatePassword(t, caller.id, newHash, now).0)
  }

  /** After a successful change, signing in by username with a password that
      matches the new hash succeeds, as the same account. */
  lemma ChangePasswordThenLogin(t: Table<User>, caller: Principal, currentPassword: string, newHash: string,
                                matches: (string, string) -> bool, now: int, newPassword: string)
    requires UsersKeyed(t) && UniqueNames(t)
    requires ChangePassword(t, caller, currentPassword, newHash, matches, now).0 == Ok
    requires '@' !in t.rows[caller.id].username && matches(newPassword, newHash)
    ensures var t' := ChangePassword(t, caller, currentPassword, newHash, matches, now).1;
            var login := LoginUser(t', t.rows[caller.id].username, newPassword, matches);
            login.status == Ok && login.session.value.payload.id == caller.id
  {
    var t' := ChangePassword(t, caller, currentPassword, newHash, matches, now).1;
    assert UsersKeyed(t') && UniqueNames(t');
    FindForLoginUnique(t', t.rows[caller.id].username, caller.id);
  }

  // ---------------------------------------------------------------------------
  // uploadProfilePicture
  // ---------------------------------------------------------------------------

  /** The directory the profile-picture storage writes into. */
  const ProfilePicturesDir: string := "uploads/profile-pictures/"

  /** The URL stored for a profile picture. Without its leading '/', which is
      what the handler strips before resolving an old picture, it is the path
      the file was written to. */
  function ProfilePictureUrl(filename: string): (r: string)
    ensures |r| > 0 && r[0] == '/'
    ensures r[1..] == ProfilePicturesDir + filename
  {
    "/uploads/profile-pictures/" + filename
  }

  /** `uploadProfilePicture`: 404 for a missing row before 400 for a missing
      file; otherwise the URL of the stored file is recorded and returned.
      `file` is the stored name multer gave the upload, if any. */
  function UploadProfilePicture(t: Table<User>, caller: Principal, file: Option<string>, now: int)
    : (r: (nat, Table<User>, Option<string>))
    ensures r.0 == NotFound <==> caller.id !in t.rows
    ensures r.0 == BadRequest <==> caller.id in t.rows && file.None?
    ensures r.0 == Ok <==> caller.id in t.rows && file.Some?
    ensures r.0 != Ok ==> r.1 == t && r.2.None?
    ensures r.0 == Ok ==>
              && r.2 == Some(ProfilePictureUrl(file.value))
              && r.1 == UserModel.UpdateProfilePicture(t, caller.id, ProfilePictureUrl(file.value), now).0
              && r.1.rows[caller.id].profilePictureUrl == r.2.value
  {
    match UserModel.FindById(t, caller.id)
    case None => (NotFound, t, None)
    case Some(_) =>
      match file
      case None => (BadRequest, t, None)
      case Some(name) =>
        var url := ProfilePictureUrl(name);
        (Ok, UserModel.UpdateProfilePicture(t, caller.id, url, now).0, Some(url))
  }
}
