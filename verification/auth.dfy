/**
 * The account routes of `setupAuth`: registration, the local-strategy login,
 * logout, the current user, and the profile and password updates. The session
 * holds the logged-in user's id; every user record sent back has its password
 * digest removed.
 */
module Auth {
  import opened Wrappers
  import opened Json
  import opened Text
  import opened Credentials
  import opened Schema
  import opened Storage
  import opened Http
  import opened Runtime

  /** A registration body whose members have the types the route relies on. */
  datatype Registration = Registration(
    username: string,
    password: string,
    firstName: Option<string>,
    lastName: Option<string>,
    email: Option<string>)

  datatype AuthRequest =
    | RegisterRequest(form: Registration)                   // POST /api/register
    | LoginRequest(username: string, password: string)      // POST /api/login
    | LogoutRequest                                         // POST /api/logout
    | CurrentUserRequest                                    // GET /api/user
    | ProfileRequest(body: Object)                          // PATCH /api/profile
    | PasswordRequest(body: Object)                         // PATCH /api/password

  /** The verdict of the local strategy's verify callback. */
  datatype Verdict = Accepted(user: User) | Rejected

  /** What passport sends when the request lacks a username or a password. */
  const MissingCredentials: Response := Response(400, Text("Bad Request"))

  /** The stored user named `name` has a digest that `password` matches. */
  ghost predicate CredentialsMatch(s: Store, name: string, password: string, scrypt: Kdf) {
    exists id :: id in s.users && s.users[id].username == name && ComparePasswords(password, s.users[id].password, scrypt)
  }

  /** The local strategy: an unknown username and a wrong password are both a plain rejection. */
  function Authenticate(s: Store, username: string, password: string, scrypt: Kdf): (r: Verdict)
    ensures r.Accepted? ==> r.user.username == username && ComparePasswords(password, r.user.password, scrypt)
    ensures Valid(s) ==> (r.Accepted? <==> CredentialsMatch(s, username, password, scrypt))
    ensures Valid(s) && r.Accepted? ==> r.user.id in s.users && s.users[r.user.id] == r.user
  {
    match GetUserByUsername(s, username)
    case None => Rejected
    case Some(u) => if ComparePasswords(password, u.password, scrypt) then Accepted(u) else Rejected
  }

  /** POST /api/login: on success the session holds the user and the reply is the user without the digest. */
  function Login(s: Store, session: Session, username: string, password: string, scrypt: Kdf): (r: Reply)
    ensures r.store == s
    ensures username == "" || password == "" ==> r == Reply(s, session, MissingCredentials)
    ensures username != "" && password != "" ==>
      match Authenticate(s, username, password, scrypt)
      case Rejected => r == Reply(s, session, Unauthorized)
      case Accepted(u) => r.session == Some(u.id) && r.response == Response(200, UserBody(PublicUser(u)))
  {
    if username == "" || password == "" then Reply(s, session, MissingCredentials)
    else match Authenticate(s, username, password, scrypt)
      case Rejected => Reply(s, session, Unauthorized)
      case Accepted(u) => Reply(s, Some(u.id), Response(200, UserBody(PublicUser(u))))
  }

  /**
   * POST /api/register: a taken username is a 400 and changes nothing; otherwise
   * the user is stored with the digest of its password and logged in.
   */
  function Register(s: Store, session: Session, form: Registration, salt: Salt, scrypt: Kdf): (r: Reply)
    ensures Taken(s, form.username) && Valid(s) ==> r == Reply(s, session, Response(400, Text("Username already exists")))
    ensures Valid(s) ==> (r.response.status == 201 <==> !Taken(s, form.username))
    ensures r.response.status == 201 ==>
      var id := s.nextUserId;
      var u := User(id, form.username, HashPassword(form.password, salt, scrypt), form.firstName, form.lastName, form.email);
      && r.store.users == s.users[id := u] && r.store.products == s.products
      && r.session == Some(id)
      && r.response == Response(201, UserBody(PublicUser(u)))
    ensures r.response.status != 201 ==> r.store == s && r.session == session
    ensures Valid(s) ==> Valid(r.store)
  {
    if GetUserByUsername(s, form.username).Some? then Reply(s, session, Response(400, Text("Username already exists")))
    else
      var digest := HashPassword(form.password, salt, scrypt);
      match CreateUser(s, form.username, digest, form.firstName, form.lastName, form.email)
      case Failure(_) => Reply(s, session, ServerError)
      case Success((s', u)) => Reply(s', Some(u.id), Response(201, UserBody(PublicUser(u))))
  }

  /** POST /api/logout: the session is emptied, whether or not anyone was logged in. */
  function Logout(s: Store, session: Session): (r: Reply)
    ensures r.store == s && r.session.None? && r.response.status == 200
  {
    Reply(s, None, Response(200, Text("OK")))
  }

  /** GET /api/user: the session's user without the digest. */
  function Me(s: Store, session: Session): (r: Response)
    ensures r.status == 200 <==> CurrentUser(s, session).Some?
    ensures r.status == 200 ==> r.payload == UserBody(PublicUser(CurrentUser(s, session).value))
    ensures r.status != 200 ==> r == Unauthorized
  {
    match CurrentUser(s, session)
    case None => Unauthorized
    case Some(u) => Response(200, UserBody(PublicUser(u)))
  }

  /** PATCH /api/profile: 401, then 400 for a body the schema rejects, then the updated user. */
  function Profile(s: Store, session: Session, body: Object, isEmail: string -> bool): (r: Reply)
    ensures r.session == session
    ensures CurrentUser(s, session).None? ==> r == Reply(s, session, Unauthorized)
    ensures CurrentUser(s, session).Some? && ParseProfileUpdate(body, isEmail).Failure? ==>
      r == Reply(s, session, Response(400, IssueList(ParseProfileUpdate(body, isEmail).error)))
    ensures CurrentUser(s, session).Some? && ParseProfileUpdate(body, isEmail).Success?
            && !ProfileHasValues(ParseProfileUpdate(body, isEmail).value) ==>
      r == Reply(s, session, ServerError)
    ensures r.response.status == 200 ==>
      && CurrentUser(s, session).Some? && ParseProfileUpdate(body, isEmail).Success?
      && ProfileHasValues(ParseProfileUpdate(body, isEmail).value)
      && var before := CurrentUser(s, session).value;
      && before.id in s.users && before.id in r.store.users
      && var stored := s.users[before.id];
      && var after := r.store.users[before.id];
      && r.store.products == s.products
      && after.id == stored.id && after.username == stored.username && after.password == stored.password
      && UpdateUserProfile(s, before.id, ParseProfileUpdate(body, isEmail).value) == Success((r.store, after))
      && r.response == Response(200, UserBody(PublicUser(after)))
    ensures r.response.status != 200 ==> r.store == s
    ensures Valid(s) ==> Valid(r.store)
  {
    match CurrentUser(s, session)
    case None => Reply(s, session, Unauthorized)
    case Some(u) =>
      match ParseProfileUpdate(body, isEmail)
      case Failure(issues) => Reply(s, session, Response(400, IssueList(issues)))
      case Success(data) =>
        match UpdateUserProfile(s, u.id, data)
        case Failure(_) => Reply(s, session, ServerError)
        case Success((s', updated)) => Reply(s', session, Response(200, UserBody(PublicUser(updated))))
  }

  /**
   * PATCH /api/password: 401, then 400 for a body the schema rejects, then 404 for a
   * vanished user, then 400 when the current password does not match; only then is
   * the digest replaced by one of the new password. The 404 needs the user row to
   * go between `deserializeUser` and `getUser`; a valid store never shows it (see
   * `PasswordChangeNeverNotFound`).
   */
  function ChangePassword(s: Store, session: Session, body: Object, salt: Salt, scrypt: Kdf): (r: Reply)
    ensures r.session == session
    ensures CurrentUser(s, session).None? ==> r == Reply(s, session, Unauthorized)
    ensures CurrentUser(s, session).Some? && ParsePasswordUpdate(body).Failure? ==>
      r == Reply(s, session, Response(400, IssueList(ParsePasswordUpdate(body).error)))
    ensures CurrentUser(s, session).Some? && ParsePasswordUpdate(body).Success?
            && CurrentUser(s, session).value.id !in s.users ==>
      r == Reply(s, session, Response(404, Text("User not found")))
    ensures && CurrentUser(s, session).Some? && ParsePasswordUpdate(body).Success?
            && (var id := CurrentUser(s, session).value.id;
                id in s.users
                && !ComparePasswords(ParsePasswordUpdate(body).value.currentPassword, s.users[id].password, scrypt)) ==>
      r == Reply(s, session, Response(400, Text("Current password is incorrect")))
    ensures r.response.status == 200 <==>
      && CurrentUser(s, session).Some? && ParsePasswordUpdate(body).Success?
      && var id := CurrentUser(s, session).value.id;
      && id in s.users
      && ComparePasswords(ParsePasswordUpdate(body).value.currentPassword, s.users[id].password, scrypt)
    ensures r.response.status == 200 ==>
      var id := CurrentUser(s, session).value.id;
      && r.store.users == s.users[id := s.users[id].(password := HashPassword(ParsePasswordUpdate(body).value.newPassword, salt, scrypt))]
      && r.store.products == s.products
      && r.response == Response(200, MessageBody("Password updated successfully"))
    ensures r.response.status != 200 ==> r.store == s
    ensures Valid(s) ==> Valid(r.store)
  {
    match CurrentUser(s, session)
    case None => Reply(s, session, Unauthorized)
    case Some(u) =>
      match ParsePasswordUpdate(body)
      case Failure(issues) => Reply(s, session, Response(400, IssueList(issues)))
      case Success(data) =>
        match GetUser(s, u.id)
        case None => Reply(s, session, Response(404, Text("User not found")))
        case Some(stored) =>
          if !ComparePasswords(data.currentPassword, stored.password, scrypt) then
            Reply(s, session, Response(400, Text("Current password is incorrect")))
          else
            var s' := UpdateUserPassword(s, u.id, HashPassword(data.newPassword, salt, scrypt));
            Reply(s', session, Response(200, MessageBody("Password updated successfully")))
  }

  /** In a valid store the session's user is stored under its own id, so no password change is a 404. */
  lemma PasswordChangeNeverNotFound(s: Store, session: Session, body: Object, salt: Salt, scrypt: Kdf)
    requires Valid(s)
    ensures ChangePassword(s, session, body, salt, scrypt).response.status != 404
  {
    if CurrentUser(s, session).Some? {
      assert CurrentUser(s, session).value.id == session.value;
    }
  }

  /** Dispatches one account request. `salt` stands for the 16 random bytes a new digest is salted with. */
  function HandleAuthRequest(s: Store, session: Session, req: AuthRequest, salt: Salt, env: Builtins): (r: Reply)
    ensures HidesDigest(r.response)
    ensures Valid(s) ==> Valid(r.store)
    ensures r.store != s ==> req.RegisterRequest? || req.ProfileRequest? || req.PasswordRequest?
    ensures r.session != session ==> req.RegisterRequest? || req.LoginRequest? || req.LogoutRequest?
    ensures StaleSession(s, session) ==> r == Reply(s, session, ServerError)
  {
    if StaleSession(s, session) then Reply(s, session, ServerError)
    else match req
    case RegisterRequest(form) => Register(s, session, form, salt, env.scrypt)
    case LoginRequest(username, password) => Login(s, session, username, password, env.scrypt)
    case LogoutRequest => Logout(s, session)
    case CurrentUserRequest => Reply(s, session, Me(s, session))
    case ProfileRequest(body) => Profile(s, session, body, env.isEmail)
    case PasswordRequest(body) => ChangePassword(s, session, body, salt, env.scrypt)
  }

  // ---------------------------------------------------------------------------
  // Properties

  /** An unknown username and a wrong password get the same reply, so a client cannot tell them apart. */
  lemma LoginFailuresAlike(s: Store, session: Session, unknown: string, guess: string,
                           name: string, wrong: string, scrypt: Kdf)
    requires Valid(s)
    requires unknown != "" && guess != "" && name != "" && wrong != ""
    requires !Taken(s, unknown)
    requires !CredentialsMatch(s, name, wrong, scrypt)
    ensures Login(s, session, unknown, guess, scrypt) == Login(s, session, name, wrong, scrypt)
    ensures Login(s, session, unknown, guess, scrypt) == Reply(s, session, Unauthorized)
  {
  }

  /** The user found by name in a valid store is the one stored under its id. */
  lemma FoundByName(s: Store, u: User)
    requires Valid(s) && u.id in s.users && s.users[u.id] == u
    ensures GetUserByUsername(s, u.username) == Some(u)
  {
    var r := GetUserByUsername(s, u.username);
    assert Taken(s, u.username) by { assert s.users[u.id].username == u.username; }
    assert s.users[r.value.id].username == s.users[u.id].username;
  }

  /** A fresh registration can log in at once with the password it chose. */
  lemma RegisterThenLogin(s: Store, session: Session, form: Registration, salt: Salt, scrypt: Kdf, later: Session)
    requires Valid(s) && !Taken(s, form.username)
    requires form.username != "" && form.password != ""
    ensures var r := Register(s, session, form, salt, scrypt);
      var l := Login(r.store, later, form.username, form.password, scrypt);
      && r.response.status == 201
      && l.session == Some(s.nextUserId) && l.response.status == 200
  {
    var r := Register(s, session, form, salt, scrypt);
    var u := User(s.nextUserId, form.username, HashPassword(form.password, salt, scrypt), form.firstName, form.lastName, form.email);
    FoundByName(r.store, u);
    HashThenCompare(form.password, salt, scrypt);
  }

  /** A username can be registered only once: the second attempt is a 400 and changes nothing. */
  lemma RegisterTwiceFails(s: Store, session: Session, form: Registration, other: Registration, salt: Salt, salt2: Salt, scrypt: Kdf)
    requires Valid(s) && other.username == form.username
    requires Register(s, session, form, salt, scrypt).response.status == 201
    ensures var r := Register(s, session, form, salt, scrypt);
      Register(r.store, r.session, other, salt2, scrypt) == Reply(r.store, r.session, Response(400, Text("Username already exists")))
  {
    var r := Register(s, session, form, salt, scrypt);
    var id := s.nextUserId;
    assert r.store.users[id].username == form.username;
  }

  /** The digest a successful password change stores, found again by username. */
  lemma ChangedDigestStored(s: Store, session: Session, body: Object, salt: Salt, scrypt: Kdf)
    requires Valid(s)
    requires ChangePassword(s, session, body, salt, scrypt).response.status == 200
    ensures var u := CurrentUser(s, session).value;
      var digest := HashPassword(ParsePasswordUpdate(body).value.newPassword, salt, scrypt);
      GetUserByUsername(ChangePassword(s, session, body, salt, scrypt).store, u.username) == Some(u.(password := digest))
  {
    var r := ChangePassword(s, session, body, salt, scrypt);
    var u := CurrentUser(s, session).value;
    var digest := HashPassword(ParsePasswordUpdate(body).value.newPassword, salt, scrypt);
    FoundByName(r.store, u.(password := digest));
  }

  /** After a password change the new password logs in. */
  lemma PasswordChangeThenLogin(s: Store, session: Session, body: Object, salt: Salt, scrypt: Kdf)
    requires Valid(s)
    requires ChangePassword(s, session, body, salt, scrypt).response.status == 200
    requires CurrentUser(s, session).value.username != ""
    ensures var r := ChangePassword(s, session, body, salt, scrypt);
      var u := CurrentUser(s, session).value;
      Login(r.store, None, u.username, ParsePasswordUpdate(body).value.newPassword, scrypt).session == Some(u.id)
  {
    PasswordUpdateValidity(body);
    ChangedDigestStored(s, session, body, salt, scrypt);
    HashThenCompare(ParsePasswordUpdate(body).value.newPassword, salt, scrypt);
  }

  /** After a password change, a password whose derived key differs from the new one is rejected. */
  lemma PasswordChangeRejectsOthers(s: Store, session: Session, body: Object, salt: Salt, scrypt: Kdf, other: string)
    requires Valid(s)
    requires ChangePassword(s, session, body, salt, scrypt).response.status == 200
    requires scrypt(other, Hex(salt)) != scrypt(ParsePasswordUpdate(body).value.newPassword, Hex(salt))
    ensures var r := ChangePassword(s, session, body, salt, scrypt);
      Authenticate(r.store, CurrentUser(s, session).value.username, other, scrypt).Rejected?
  {
    ChangedDigestStored(s, session, body, salt, scrypt);
    OtherPasswordRejected(ParsePasswordUpdate(body).value.newPassword, other, salt, scrypt);
  }

  /** Logging out ends the session: the current user is then unknown. */
  lemma LogoutThenMe(s: Store, session: Session)
    ensures Me(Logout(s, session).store, Logout(s, session).session) == Unauthorized
  {
  }
}
