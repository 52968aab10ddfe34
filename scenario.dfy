/**
 * Clients of the routes: how the session carries identity from one request
 * to the next, and the register-login-create-update story end to end. A new
 * request is a fresh `RequestContext` built from the session cookie, followed
 * by `LoadLoggedInUser`, as `before_app_request` arranges.
 */
module Scenario {
  import opened Wrappers
  import opened Security
  import opened Db
  import opened Http
  import opened Auth
  import opened Blog

  /** The request after `ctx`: same session, `g.user` resolved afresh. */
  method NextRequest(db: Database, ctx: RequestContext) returns (next: RequestContext)
    ensures fresh(next)
    ensures next.sessionUserId == ctx.sessionUserId
    ensures next.user == match ctx.sessionUserId
      case None => None
      case Some(id) => LookupUser(db.users, id)
    ensures UserLoaded(db, next)
  {
    next := new RequestContext(ctx.sessionUserId);
    LoadLoggedInUser(db, next);
  }

  /** A successful login makes the next request run as that user. */
  method LoginThenNextRequest(db: Database, ctx: RequestContext, username: string, password: string)
    returns (next: RequestContext)
    requires db.Valid()
    requires Authenticate(db.users, db.nextUserId, username, password).Success?
    modifies ctx
    ensures next.user == Some(Authenticate(db.users, db.nextUserId, username, password).value)
    ensures next.user.value.username == username
  {
    var _ := Login(db, ctx, Post, username, password);
    next := NextRequest(db, ctx);
  }

  /** After logout the next request has no user. */
  method LogoutThenNextRequest(db: Database, ctx: RequestContext) returns (next: RequestContext)
    modifies ctx
    ensures next.user == None
  {
    var _ := Logout(ctx);
    next := NextRequest(db, ctx);
  }

  /**
   * alice registers, logs in and creates a post; the index then shows exactly
   * that post; bob registers and logs in, and may not update alice's post.
   */
  method AliceAndBob()
  {
    var db := new Database();
    var r := Register(db, Post, "alice", "pw", "salt-a");
    assert r == Redirect(LoginEndpoint);
    var aliceHash := GeneratePasswordHash("salt-a", "pw");
    assert db.users == map[1 := UserRow("alice", aliceHash)];

    CheckGeneratedHash("salt-a", "pw", "pw");
    var ctx := new RequestContext(None);
    assert Authenticate(db.users, db.nextUserId, "alice", "pw") == Success(User(1, "alice", aliceHash));
    var alice := LoginThenNextRequest(db, ctx, "alice", "pw");
    assert alice.user == Some(User(1, "alice", aliceHash));

    r := Create(db, alice, Post, "T", "B", 100);
    assert r == Redirect(IndexEndpoint);
    assert db.posts == map[1 := PostRow("T", "B", 100, 1)];

    var shown := AllPosts(db.posts, db.users, db.nextPostId);
    var post := Listing(1, "T", "B", 100, 1, "alice");
    assert shown == [post] by {
      assert JoinedRows(db.posts, db.users, 2, 2) == [];
      assert JoinedRows(db.posts, db.users, 1, 2) == [post];
      assert SortByCreatedDesc([post]) == InsertByCreated(post, []);
    }

    r := Register(db, Post, "bob", "pw2", "salt-b");
    assert Auth.RegistrationError(map[1 := UserRow("alice", aliceHash)], 2, "bob", "pw2") == None by {
      assert !UsernameTaken(map[1 := UserRow("alice", aliceHash)], "bob");
    }
    assert r == Redirect(LoginEndpoint);
    var bobHash := GeneratePasswordHash("salt-b", "pw2");
    assert db.users == map[1 := UserRow("alice", aliceHash), 2 := UserRow("bob", bobHash)];
    assert FindByUsername(db.users, "bob", 1, db.nextUserId) == Some(2) by {
      assert "alice" != "bob";
      assert FindByUsername(db.users, "bob", 2, 3) == Some(2);
    }
    CheckGeneratedHash("salt-b", "pw2", "pw2");
    assert Authenticate(db.users, db.nextUserId, "bob", "pw2") == Success(User(2, "bob", bobHash));
    var bob := LoginThenNextRequest(db, ctx, "bob", "pw2");
    assert bob.user == Some(User(2, "bob", bobHash));

    r := Update(db, bob, 1, Post, "X", "Y");
    assert r == Abort(403, None);
    assert db.posts == map[1 := PostRow("T", "B", 100, 1)];
  }
}
