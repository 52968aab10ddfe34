/**
 * The authentication blueprint (flaskr/auth.py): registration, login, the
 * per-request identity loading, logout and the `login_required` guard.
 */
module Auth {
  import opened Wrappers
  import opened Security
  import opened Db
  import opened Http

  const UsernameRequired := "Username is required."
  const PasswordRequired := "Password is required."
  const IncorrectUsername := "Incorrect username."
  const IncorrectPassword := "Incorrect password."

  function AlreadyRegistered(username: string): string
  {
    "User " + username + " is already registered"
  }

  /** Some row of `user` has this username. */
  ghost predicate UsernameTaken(users: map<int, UserRow>, username: string)
  {
    exists id :: id in users && users[id].username == username
  }

  /** `SELECT id FROM user WHERE username = ?`, scanning the ids in [lo, hi). */
  function FindByUsername(users: map<int, UserRow>, username: string, lo: int, hi: int): (r: Option<int>)
    decreases hi - lo
    ensures r.Some? ==> lo <= r.value < hi && r.value in users && users[r.value].username == username
    ensures r.None? ==> forall id :: lo <= id < hi && id in users ==> users[id].username != username
  {
    if lo >= hi then None
    else if lo in users && users[lo].username == username then Some(lo)
    else FindByUsername(users, username, lo + 1, hi)
  }

  /** `SELECT * FROM user WHERE id = ?`. */
  function LookupUser(users: map<int, UserRow>, id: int): (r: Option<User>)
    ensures r.Some? <==> id in users
    ensures r.Some? ==> r.value.id == id && users[id] == UserRow(r.value.username, r.value.password)
  {
    if id in users then Some(User(id, users[id].username, users[id].password)) else None
  }

  /**
   * The error `register` computes: an empty username first, then an empty
   * password, then a username that is already registered.
   */
  function RegistrationError(users: map<int, UserRow>, hi: int, username: string, password: string): (e: Option<string>)
    requires IdsBetween(users, 1, hi)
    ensures e == Some(UsernameRequired) <==> username == ""
    ensures e == Some(PasswordRequired) <==> username != "" && password == ""
    ensures e == Some(AlreadyRegistered(username)) <==> username != "" && password != "" && UsernameTaken(users, username)
    ensures e.None? <==> username != "" && password != "" && !UsernameTaken(users, username)
  {
    if username == "" then Some(UsernameRequired)
    else if password == "" then Some(PasswordRequired)
    else if FindByUsername(users, username, 1, hi).Some? then Some(AlreadyRegistered(username))
    else None
  }

  /**
   * The checks `login` makes: an unknown username, then a password whose hash
   * check fails; otherwise the user's row.
   */
  function Authenticate(users: map<int, UserRow>, hi: int, username: string, password: string): (r: Result<User, string>)
    requires IdsBetween(users, 1, hi) && UniqueUsernames(users)
    ensures r == Failure(IncorrectUsername) <==> !UsernameTaken(users, username)
    ensures r == Failure(IncorrectPassword) <==>
      exists id :: id in users && users[id].username == username && !CheckPasswordHash(users[id].password, password)
    ensures r.Success? <==>
      exists id :: id in users && users[id].username == username && CheckPasswordHash(users[id].password, password)
    ensures r.Success? ==>
      && r.value.id in users
      && users[r.value.id] == UserRow(username, r.value.password)
      && r.value.username == username
      && CheckPasswordHash(r.value.password, password)
  {
    match FindByUsername(users, username, 1, hi)
    case None => Failure(IncorrectUsername)
    case Some(id) =>
      if !CheckPasswordHash(users[id].password, password) then Failure(IncorrectPassword)
      else Success(User(id, username, users[id].password))
  }

  /** `g.user`, when set, is the current row of that user. */
  ghost predicate UserLoaded(db: Database, ctx: RequestContext)
    reads db, ctx
  {
    ctx.user.Some? ==> LookupUser(db.users, ctx.user.value.id) == ctx.user
  }

  /** `login_required`: the response that replaces the view, if any. */
  function LoginRequired(user: Option<User>): (r: Option<Response>)
    ensures r.Some? <==> user.None?
    ensures r.Some? ==> r.value == Redirect(LoginEndpoint)
  {
    if user.None? then Some(Redirect(LoginEndpoint)) else None
  }

  /** The `/auth/register` view; `salt` is the randomness `generate_password_hash` draws. */
  method Register(db: Database, m: HttpMethod, username: string, password: string, salt: string)
    returns (r: Response)
    requires db.Valid()
    modifies db
    ensures db.Valid()
    ensures db.posts == old(db.posts) && db.nextPostId == old(db.nextPostId)
    ensures m == Get ==>
      r == Render(RegisterPage, []) && db.users == old(db.users) && db.nextUserId == old(db.nextUserId)
    ensures m == Post ==>
      var e := RegistrationError(old(db.users), old(db.nextUserId), username, password);
      if e.Some? then
        r == Render(RegisterPage, [e.value]) && db.users == old(db.users) && db.nextUserId == old(db.nextUserId)
      else
        && r == Redirect(LoginEndpoint)
        && old(db.nextUserId) !in old(db.users)
        && db.users == old(db.users)[old(db.nextUserId) := UserRow(username, GeneratePasswordHash(salt, password))]
        && db.nextUserId == old(db.nextUserId) + 1
  {
    if m == Get {
      return Render(RegisterPage, []);
    }
    var error := RegistrationError(db.users, db.nextUserId, username, password);
    if error.None? {
      db.users := db.users[db.nextUserId := UserRow(username, GeneratePasswordHash(salt, password))];
      db.nextUserId := db.nextUserId + 1;
      return Redirect(LoginEndpoint);
    }
    r := Render(RegisterPage, [error.value]);
  }

  /** The `/auth/login` view: on success the session is cleared, then bound to the user. */
  method Login(db: Database, ctx: RequestContext, m: HttpMethod, username: string, password: string)
    returns (r: Response)
    requires db.Valid()
    modifies ctx
    ensures ctx.user == old(ctx.user)
    ensures m == Get ==> r == Render(LoginPage, []) && ctx.sessionUserId == old(ctx.sessionUserId)
    ensures m == Post ==>
      match Authenticate(db.users, db.nextUserId, username, password)
      case Success(u) => r == Redirect(IndexEndpoint) && ctx.sessionUserId == Some(u.id)
      case Failure(e) => r == Render(LoginPage, [e]) && ctx.sessionUserId == old(ctx.sessionUserId)
  {
    if m == Get {
      return Render(LoginPage, []);
    }
    var outcome := Authenticate(db.users, db.nextUserId, username, password);
    match outcome
    case Success(u) =>
      ctx.sessionUserId := None;
      ctx.sessionUserId := Some(u.id);
      r := Redirect(IndexEndpoint);
    case Failure(e) =>
      r := Render(LoginPage, [e]);
  }

  /** Runs before every request: resolves `session['user_id']` into `g.user`. */
  method LoadLoggedInUser(db: Database, ctx: RequestContext)
    modifies ctx
    ensures ctx.sessionUserId == old(ctx.sessionUserId)
    ensures ctx.user == match ctx.sessionUserId
      case None => None
      case Some(id) => LookupUser(db.users, id)
    ensures UserLoaded(db, ctx)
  {
    match ctx.sessionUserId
    case None =>
      ctx.user := None;
    case Some(id) =>
      ctx.user := LookupUser(db.users, id);
  }

  /** The `/auth/logout` view: clears the session; `g.user` of this request stays as it was. */
  method Logout(ctx: RequestContext) returns (r: Response)
    modifies ctx
    ensures ctx.sessionUserId == None && ctx.user == old(ctx.user)
    ensures r == Redirect(IndexEndpoint)
  {
    ctx.sessionUserId := None;
    r := Redirect(IndexEndpoint);
  }
}
