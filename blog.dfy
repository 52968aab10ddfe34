/**
 * The blog blueprint (flaskr/blog.py): the post listing, creation, the
 * `get_post` existence and ownership gate, update and delete.
 */
module Blog {
  import opened Wrappers
  import opened Db
  import opened Http
  import opened Auth

  const TitleRequired := "Title is required."

  /** The post exists and the inner join with its author finds a row. */
  predicate Joined(posts: map<int, PostRow>, users: map<int, UserRow>, id: int)
  {
    id in posts && posts[id].authorId in users
  }

  /** The joined row `p.id, title, body, created, author_id, username` of post `id`. */
  function ListingOf(posts: map<int, PostRow>, users: map<int, UserRow>, id: int): Listing
    requires Joined(posts, users, id)
  {
    var p := posts[id];
    Listing(id, p.title, p.body, p.created, p.authorId, users[p.authorId].username)
  }

  // ---------------------------------------------------------------------------
  // The index query: join, then ORDER BY created DESC.

  ghost predicate SortedByCreatedDesc(s: seq<Listing>)
  {
    forall i, j :: 0 <= i < j < |s| ==> s[i].created >= s[j].created
  }

  /** No post appears twice. */
  ghost predicate DistinctIds(s: seq<Listing>)
  {
    forall i, j :: 0 <= i < j < |s| ==> s[i].id != s[j].id
  }

  /** The joined rows of the posts with ids in [lo, hi), in increasing id order. */
  function JoinedRows(posts: map<int, PostRow>, users: map<int, UserRow>, lo: int, hi: int): (r: seq<Listing>)
    decreases hi - lo
    ensures forall i :: 0 <= i < |r| ==>
      lo <= r[i].id < hi && Joined(posts, users, r[i].id) && r[i] == ListingOf(posts, users, r[i].id)
    ensures forall id :: lo <= id < hi && Joined(posts, users, id) ==> ListingOf(posts, users, id) in r
    ensures forall i, j :: 0 <= i < j < |r| ==> r[i].id < r[j].id
  {
    if lo >= hi then []
    else
      var rest := JoinedRows(posts, users, lo + 1, hi);
      if Joined(posts, users, lo) then [ListingOf(posts, users, lo)] + rest else rest
  }

  /** Inserts `x` before the first row created strictly earlier. */
  function InsertByCreated(x: Listing, s: seq<Listing>): seq<Listing>
  {
    if s == [] || x.created >= s[0].created then [x] + s
    else [s[0]] + InsertByCreated(x, s[1..])
  }

  /** Insertion sort on `created`, latest first. */
  function SortByCreatedDesc(s: seq<Listing>): seq<Listing>
  {
    if s == [] then [] else InsertByCreated(s[0], SortByCreatedDesc(s[1..]))
  }

  lemma {:induction false} InsertPermutes(x: Listing, s: seq<Listing>)
    ensures multiset(InsertByCreated(x, s)) == multiset(s) + multiset{x}
  {
    if s != [] && x.created < s[0].created {
      InsertPermutes(x, s[1..]);
      assert s == [s[0]] + s[1..];
    }
  }

  lemma {:induction false} InsertKeepsOrder(x: Listing, s: seq<Listing>)
    requires SortedByCreatedDesc(s)
    ensures SortedByCreatedDesc(InsertByCreated(x, s))
  {
    if s != [] && x.created < s[0].created {
      var rest := InsertByCreated(x, s[1..]);
      InsertKeepsOrder(x, s[1..]);
      InsertPermutes(x, s[1..]);
      forall k | 0 <= k < |rest| ensures s[0].created >= rest[k].created {
        assert rest[k] in multiset(s[1..]) + multiset{x};
      }
    }
  }

  lemma {:induction false} InsertKeepsDistinct(x: Listing, s: seq<Listing>)
    requires DistinctIds(s)
    requires forall k :: 0 <= k < |s| ==> s[k].id != x.id
    ensures DistinctIds(InsertByCreated(x, s))
  {
    if s != [] && x.created < s[0].created {
      var rest := InsertByCreated(x, s[1..]);
      InsertKeepsDistinct(x, s[1..]);
      InsertPermutes(x, s[1..]);
      forall k | 0 <= k < |rest| ensures s[0].id != rest[k].id {
        assert rest[k] in multiset(s[1..]) + multiset{x};
      }
    }
  }

  /** The sort orders by `created`, latest first. */
  lemma {:induction false} SortOrders(s: seq<Listing>)
    ensures SortedByCreatedDesc(SortByCreatedDesc(s))
  {
    if s != [] {
      SortOrders(s[1..]);
      InsertKeepsOrder(s[0], SortByCreatedDesc(s[1..]));
    }
  }

  /** The sort only rearranges its input. */
  lemma {:induction false} SortPermutes(s: seq<Listing>)
    ensures multiset(SortByCreatedDesc(s)) == multiset(s)
  {
    if s != [] {
      SortPermutes(s[1..]);
      InsertPermutes(s[0], SortByCreatedDesc(s[1..]));
      assert s == [s[0]] + s[1..];
    }
  }

  /** The sort never duplicates a post. */
  lemma {:induction false} SortKeepsDistinct(s: seq<Listing>)
    requires DistinctIds(s)
    ensures DistinctIds(SortByCreatedDesc(s))
  {
    if s != [] {
      var sorted := SortByCreatedDesc(s[1..]);
      SortKeepsDistinct(s[1..]);
      SortPermutes(s[1..]);
      forall k | 0 <= k < |sorted| ensures sorted[k].id != s[0].id {
        assert sorted[k] in multiset(s[1..]);
      }
      InsertKeepsDistinct(s[0], sorted);
    }
  }

  /** What the index shows, stated of the sorted join of all rows. */
  lemma IndexRows(posts: map<int, PostRow>, users: map<int, UserRow>, hi: int)
    requires IdsBetween(posts, 1, hi)
    ensures var r := SortByCreatedDesc(JoinedRows(posts, users, 1, hi));
      && SortedByCreatedDesc(r)
      && DistinctIds(r)
      && (forall i :: 0 <= i < |r| ==> Joined(posts, users, r[i].id) && r[i] == ListingOf(posts, users, r[i].id))
      && (forall id :: Joined(posts, users, id) ==> exists i :: 0 <= i < |r| && r[i].id == id)
  {
    var rows := JoinedRows(posts, users, 1, hi);
    var r := SortByCreatedDesc(rows);
    SortOrders(rows);
    SortPermutes(rows);
    SortKeepsDistinct(rows);
    forall i | 0 <= i < |r| ensures r[i] in rows {
      assert r[i] in multiset(rows);
    }
    forall id | Joined(posts, users, id) ensures exists i :: 0 <= i < |r| && r[i].id == id {
      var e := ListingOf(posts, users, id);
      assert e in multiset(r);
      var i :| 0 <= i < |r| && r[i] == e;
    }
  }

  /**
   * The posts the index shows: every post joined with its author's username,
   * each exactly once, latest `created` first (ties in any order).
   */
  function AllPosts(posts: map<int, PostRow>, users: map<int, UserRow>, hi: int): (r: seq<Listing>)
    requires IdsBetween(posts, 1, hi)
    ensures SortedByCreatedDesc(r)
    ensures DistinctIds(r)
    ensures forall i :: 0 <= i < |r| ==> Joined(posts, users, r[i].id) && r[i] == ListingOf(posts, users, r[i].id)
    ensures forall id :: Joined(posts, users, id) ==> exists i :: 0 <= i < |r| && r[i].id == id
  {
    IndexRows(posts, users, hi);
    SortByCreatedDesc(JoinedRows(posts, users, 1, hi))
  }

  /** The `/` view; since every author exists, every stored post is listed. */
  method Index(db: Database) returns (r: Response)
    requires db.Valid()
    ensures r == Render(IndexPage(AllPosts(db.posts, db.users, db.nextPostId)), [])
    ensures forall id :: id in db.posts ==> exists i :: 0 <= i < |r.page.posts| && r.page.posts[i].id == id
  {
    r := Render(IndexPage(AllPosts(db.posts, db.users, db.nextPostId)), []);
    assert forall id :: id in db.posts ==> Joined(db.posts, db.users, id);
  }

  // ---------------------------------------------------------------------------
  // The existence and ownership gate.

  function NatToString(n: nat): string
  {
    var d := ['0', '1', '2', '3', '4', '5', '6', '7', '8', '9'][n % 10];
    if n < 10 then [d] else NatToString(n / 10) + [d]
  }

  function IntToString(i: int): string
  {
    if i < 0 then "-" + NatToString(-i) else NatToString(i)
  }

  function NotFoundMessage(id: int): string
  {
    "Post id " + IntToString(id) + " doesn't exist."
  }

  /**
   * `get_post(id, check_author)`: 404 with the id in the message when the post
   * is missing, else 403 when the author is checked and is not the current user.
   */
  function GetPost(posts: map<int, PostRow>, users: map<int, UserRow>, user: Option<User>, id: int, checkAuthor: bool)
    : (r: Result<Listing, Response>)
    requires checkAuthor ==> user.Some?
    ensures !Joined(posts, users, id) <==> r == Failure(Abort(404, Some(NotFoundMessage(id))))
    ensures Joined(posts, users, id) && checkAuthor && posts[id].authorId != user.value.id <==> r == Failure(Abort(403, None))
    ensures r.Success? <==> Joined(posts, users, id) && (checkAuthor ==> posts[id].authorId == user.value.id)
    ensures r.Success? ==> r.value == ListingOf(posts, users, id)
  {
    if !Joined(posts, users, id) then Failure(Abort(404, Some(NotFoundMessage(id))))
    else if checkAuthor && posts[id].authorId != user.value.id then Failure(Abort(403, None))
    else Success(ListingOf(posts, users, id))
  }

  /** Every post that vanished or changed between `before` and `after` belonged to `user`. */
  ghost predicate OnlyOwnerChanged(before: map<int, PostRow>, after: map<int, PostRow>, user: Option<User>)
  {
    forall id :: id in before && (id !in after || after[id] != before[id]) ==>
      user.Some? && before[id].authorId == user.value.id
  }

  // ---------------------------------------------------------------------------
  // The mutating views.

  /** The `/create` view; `now` is the server clock at insertion (`created`). */
  method Create(db: Database, ctx: RequestContext, m: HttpMethod, title: string, body: string, now: int)
    returns (r: Response)
    requires db.Valid() && UserLoaded(db, ctx)
    modifies db
    ensures db.Valid()
    ensures db.users == old(db.users) && db.nextUserId == old(db.nextUserId)
    ensures ctx.user.None? ==> r == Redirect(LoginEndpoint)
    ensures ctx.user.Some? && m == Get ==> r == Render(CreatePage, [])
    ensures ctx.user.Some? && m == Post && title == "" ==> r == Render(CreatePage, [TitleRequired])
    ensures !(ctx.user.Some? && m == Post && title != "") ==>
      db.posts == old(db.posts) && db.nextPostId == old(db.nextPostId)
    ensures ctx.user.Some? && m == Post && title != "" ==>
      && r == Redirect(IndexEndpoint)
      && old(db.nextPostId) !in old(db.posts)
      && db.posts == old(db.posts)[old(db.nextPostId) := PostRow(title, body, now, ctx.user.value.id)]
      && db.nextPostId == old(db.nextPostId) + 1
  {
    var denied := LoginRequired(ctx.user);
    if denied.Some? {
      return denied.value;
    }
    if m == Get {
      return Render(CreatePage, []);
    }
    if title == "" {
      return Render(CreatePage, [TitleRequired]);
    }
    db.posts := db.posts[db.nextPostId := PostRow(title, body, now, ctx.user.value.id)];
    db.nextPostId := db.nextPostId + 1;
    r := Redirect(IndexEndpoint);
  }

  /** The `/<id>/update` view: the gate runs first, on GET and POST alike. */
  method Update(db: Database, ctx: RequestContext, id: int, m: HttpMethod, title: string, body: string)
    returns (r: Response)
    requires db.Valid()
    modifies db
    ensures db.Valid()
    ensures db.users == old(db.users) && db.nextUserId == old(db.nextUserId) && db.nextPostId == old(db.nextPostId)
    ensures OnlyOwnerChanged(old(db.posts), db.posts, ctx.user)
    ensures ctx.user.None? ==> r == Redirect(LoginEndpoint) && db.posts == old(db.posts)
    ensures ctx.user.Some? ==>
      match GetPost(old(db.posts), old(db.users), ctx.user, id, true)
      case Failure(denied) => r == denied && db.posts == old(db.posts)
      case Success(post) =>
        if m == Get then r == Render(UpdatePage(post), []) && db.posts == old(db.posts)
        else if title == "" then r == Render(UpdatePage(post), [TitleRequired]) && db.posts == old(db.posts)
        else
          && r == Redirect(IndexEndpoint)
          && db.posts == old(db.posts)[id := old(db.posts)[id].(title := title, body := body)]
  {
    var denied := LoginRequired(ctx.user);
    if denied.Some? {
      return denied.value;
    }
    var found := GetPost(db.posts, db.users, ctx.user, id, true);
    if found.Failure? {
      return found.error;
    }
    if m == Get {
      return Render(UpdatePage(found.value), []);
    }
    if title == "" {
      return Render(UpdatePage(found.value), [TitleRequired]);
    }
    db.posts := db.posts[id := db.posts[id].(title := title, body := body)];
    r := Redirect(IndexEndpoint);
  }

  /** The `/<id>/delete` view (POST only): the gate, then `DELETE FROM post WHERE id = ?`. */
  method Delete(db: Database, ctx: RequestContext, id: int) returns (r: Response)
    requires db.Valid()
    modifies db
    ensures db.Valid()
    ensures db.users == old(db.users) && db.nextUserId == old(db.nextUserId) && db.nextPostId == old(db.nextPostId)
    ensures OnlyOwnerChanged(old(db.posts), db.posts, ctx.user)
    ensures ctx.user.None? ==> r == Redirect(LoginEndpoint) && db.posts == old(db.posts)
    ensures ctx.user.Some? ==>
      match GetPost(old(db.posts), old(db.users), ctx.user, id, true)
      case Failure(denied) => r == denied && db.posts == old(db.posts)
      case Success(_) => r == Redirect(IndexEndpoint) && db.posts == old(db.posts) - {id}
  {
    var denied := LoginRequired(ctx.user);
    if denied.Some? {
      return denied.value;
    }
    var found := GetPost(db.posts, db.users, ctx.user, id, true);
    if found.Failure? {
      return found.error;
    }
    db.posts := db.posts - {id};
    r := Redirect(IndexEndpoint);
  }
}

/**
 * The text of the INSERT that `create` sends. As written, a quote stands
 * after the column list; SQL opens a string literal at every quote and closes
 * it at the next one, so text with an odd number of quotes ends inside an
 * unterminated literal and the statement cannot be parsed. `Blog.Create`
 * performs the insert the corrected text describes.
 */
module InsertStatement {

  const Columns := "INSERT INTO post (title, body, author_id)"
  const Values := " VALUES (?, ?, ?)"

  /** The statement as the source writes it. */
  const AsWritten := Columns + "'" + Values

  /** The statement as intended. */
  const Corrected := Columns + Values

  function QuoteCount(s: string): nat
  {
    if s == [] then 0 else (if s[0] == '\'' then 1 else 0) + QuoteCount(s[1..])
  }

  /** Every string literal the text opens is closed again. */
  predicate LiteralsClosed(s: string)
  {
    QuoteCount(s) % 2 == 0
  }

  lemma {:induction false} QuoteCountAppend(a: string, b: string)
    ensures QuoteCount(a + b) == QuoteCount(a) + QuoteCount(b)
  {
    if a != [] {
      QuoteCountAppend(a[1..], b);
      assert (a + b)[1..] == a[1..] + b;
    } else {
      assert a + b == b;
    }
  }

  lemma {:induction false} QuoteFree(s: string)
    requires '\'' !in s
    ensures QuoteCount(s) == 0
  {
    if s != [] {
      assert s[0] in s;
      assert forall k :: 0 <= k < |s[1..]| ==> s[1..][k] == s[k + 1];
      QuoteFree(s[1..]);
    }
  }

  /** One quote between two quote-free texts leaves a literal open. */
  lemma OneQuoteBetween(a: string, b: string)
    requires '\'' !in a && '\'' !in b
    ensures QuoteCount(a + "'" + b) == 1
  {
    QuoteFree(a);
    QuoteFree(b);
    QuoteCountAppend(a, "'");
    QuoteCountAppend(a + "'", b);
  }

  /** Two quote-free texts joined stay quote-free. */
  lemma NoQuoteBetween(a: string, b: string)
    requires '\'' !in a && '\'' !in b
    ensures QuoteCount(a + b) == 0
  {
    QuoteFree(a);
    QuoteFree(b);
    QuoteCountAppend(a, b);
  }

  /** The statement as written leaves a literal open. */
  lemma AsWrittenLeavesLiteralOpen()
    ensures !LiteralsClosed(AsWritten)
  {
    OneQuoteBetween(Columns, Values);
  }

  /** The corrected statement contains no quote at all. */
  lemma CorrectedHasNoLiteral()
    ensures LiteralsClosed(Corrected)
  {
    NoQuoteBetween(Columns, Values);
  }
}
