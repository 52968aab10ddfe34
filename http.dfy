/**
 * What the web framework contributes to the routes: the request method, the
 * per-request context (the signed session cookie's `user_id` and `g.user`),
 * and the responses a view can produce. Rendering and URL building are
 * reduced to tags.
 */
module Http {
  import opened Wrappers
  import opened Db

  datatype HttpMethod = Get | Post

  /** Targets of `redirect(url_for(...))`: `auth.login` and the index. */
  datatype Endpoint = LoginEndpoint | IndexEndpoint

  /** Templates a view renders, with the data it hands them. */
  datatype Page =
    | RegisterPage
    | LoginPage
    | IndexPage(posts: seq<Listing>)
    | CreatePage
    | UpdatePage(post: Listing)

  /**
   * A view's outcome: a redirect, a rendered page carrying the messages
   * flashed before it, or an `abort(code, description)`.
   */
  datatype Response =
    | Redirect(to: Endpoint)
    | Render(page: Page, flashes: seq<string>)
    | Abort(code: int, description: Option<string>)

  /** The session (`session['user_id']`) and the request globals (`g.user`). */
  class RequestContext {
    var sessionUserId: Option<int>
    var user: Option<User>

    /** A new request arrives carrying the session cookie; `g` starts empty. */
    constructor (session: Option<int>)
      ensures sessionUserId == session && user == None
    {
      sessionUserId := session;
      user := None;
    }
  }
}
