# flaskr blog: accounts, sessions and posts

This project models the account-and-post logic of a small Flask blog ("flaskr"). The model is a state machine with two database tables, `user` and `post`, plus the per-request identity: the session cookie's `user_id` and `g.user`. The routes are methods that change that state and return a tagged response. The SQL queries and the validation rules are pure functions, and the properties the blog relies on are stated as contracts and lemmas about them:

- usernames are unique;
- every post's author exists;
- only a post's owner can change or delete it;
- a failed validation leaves both tables unchanged;
- the index lists every post exactly once, newest first.

Modules:

- `Wrappers`: `Option` and `Result`.
- `Security`: the password hash from werkzeug. A stored hash is a salt plus a derived key, and checking it re-derives the key. `CheckGeneratedHash` proves that a hash accepts exactly the password it was made from.
- `Db`: the row types and the `Database` class. The class holds the two tables as maps from id to row, with AUTOINCREMENT-style id counters. `Valid()` is the schema's constraints: ids in range, `username UNIQUE`, and `author_id REFERENCES user`.
- `Http`: request method, redirect targets, pages, the `Response` datatype (redirect, render with flashed messages, abort) and the `RequestContext` class (`session['user_id']` and `g.user`).
- `Auth` (flaskr/auth.py): registration, login, `load_logged_in_user`, logout and the `login_required` guard.
- `Blog` (flaskr/blog.py): the index query and its sort, the `get_post` gate (404 before 403), and the create, update and delete views.
- `InsertStatement`: the SQL text of the insert in `create`, as written and as corrected (see Findings).
- `Scenario`: client methods. It shows that a login or logout takes effect on the next request, and it verifies one end-to-end story: alice registers, logs in and posts; the index shows exactly her post; bob registers, logs in and gets 403 when he tries to update it.

Flask's globals become parameters: each view takes the `Database` and, where the source reads `session` or `g`, the `RequestContext`. Other inputs are parameters too: the request method, the form fields, the server clock at insertion (`now`, which becomes `created`) and the random salt of `generate_password_hash`.

The model keeps the source's observable behaviour even where a stricter design would differ. An unknown username and a wrong password give different flash messages, "Incorrect username." and "Incorrect password.", and the model keeps them apart. The duplicate-username error is the source's message "User {name} is already registered".

The views that read `g.user` (`Blog.Create`) require that it was loaded for the current request by `Auth.LoadLoggedInUser`, which the source runs before every request. Users are never deleted, so the loaded user is still in the table when the view runs.

## Model

| member | source | states |
|---|---|---|
| `Security.CheckGeneratedHash` | flaskr/auth.py:52 | the stored `generate_password_hash(password)` passes `check_password_hash` for exactly that password and fails for every other one |
| `Db.Database.constructor` | flaskr/db.py:29-34 | a fresh schema has empty `user` and `post` tables and satisfies the constraints |
| `Auth.FindByUsername` | flaskr/auth.py:41-44 | the username lookup returns an id whose row has that username, or none when no row in the id range has it |
| `Auth.LookupUser` | flaskr/auth.py:114-116 | the lookup by id returns that user's full row exactly when the id is in the table |
| `Auth.RegistrationError` | flaskr/auth.py:34-47 | the empty-username check comes first, then the empty-password check, then the duplicate-username check; there is no error exactly when both fields are non-empty and no user has that name |
| `Auth.Authenticate` | flaskr/auth.py:81-89 | "Incorrect username." exactly when no user has the name; "Incorrect password." exactly when that user's hash rejects the password; otherwise the user's own row, whose hash accepts the password |
| `Auth.LoginRequired` | flaskr/auth.py:123-142 | the guard replaces the view with a redirect to login exactly when `g.user` is None, and lets the view run otherwise |
| `Auth.Register` | flaskr/auth.py:22-60 | GET renders the form; on a validation error the form is re-rendered with that message and both tables are unchanged; on success exactly one user is added under a new id, holding the username and the hash of the password, existing users are kept, and the response redirects to login; uniqueness is preserved |
| `Auth.Login` | flaskr/auth.py:63-100 | on failure the form is re-rendered with the authentication error and the session is untouched; on success the session is cleared and bound to exactly that user's id, and the response redirects to the index; `g.user` and the tables are unchanged |
| `Auth.LoadLoggedInUser` | flaskr/auth.py:102-116 | `g.user` becomes None without a session id, and otherwise that id's current row (None if the id is unknown); the session is unchanged |
| `Auth.Logout` | flaskr/auth.py:118-121 | the session is cleared and the response redirects to the index |
| `Blog.JoinedRows` | flaskr/blog.py:23-36 | the join holds exactly the posts whose author exists, each with its author's username, in increasing id order |
| `Blog.InsertPermutes` | flaskr/blog.py:37-39 | inserting one row into the ordered listing only adds that row |
| `Blog.InsertKeepsOrder` | flaskr/blog.py:37-39 | inserting into a listing ordered by `created` descending keeps it ordered |
| `Blog.InsertKeepsDistinct` | flaskr/blog.py:37-39 | inserting a post not yet listed lists no post twice |
| `Blog.SortOrders` | flaskr/blog.py:37-39 | `ORDER BY created DESC` yields non-increasing `created` |
| `Blog.SortPermutes` | flaskr/blog.py:37-39 | the ordering only rearranges the joined rows |
| `Blog.SortKeepsDistinct` | flaskr/blog.py:37-39 | the ordering lists no post twice |
| `Blog.IndexRows` | flaskr/blog.py:23-41 | the sorted join is ordered by `created` descending and lists each joined post exactly once, with its own fields and its author's username |
| `Blog.AllPosts` | flaskr/blog.py:23-41 | the index query returns every post joined with its author's username, exactly once each, in non-increasing `created` order |
| `Blog.Index` | flaskr/blog.py:16-43 | the index view renders exactly that listing, and since every author exists, every stored post is in it |
| `Blog.GetPost` | flaskr/blog.py:81-103 | abort 404 with "Post id {id} doesn't exist." exactly when the post (joined with its author) is missing, checked before ownership; otherwise abort 403 exactly when the author is checked and is not the current user; otherwise the joined post, so with the author check off any existing post is returned |
| `Blog.Create` | flaskr/blog.py:45-79 | without a user it redirects to login and nothing changes; GET renders the form; an empty title flashes "Title is required." and leaves the post table unchanged; otherwise exactly one post is added under a new id with the given title and body, `created` = now and author = the current user, and the response redirects to the index; users are untouched and the constraints hold |
| `Blog.Update` | flaskr/blog.py:105-138 | the login guard and then the `get_post` gate run before anything else, and a denial (redirect, 404, 403) is returned with the post table unchanged; GET and an empty title re-render with the post and change nothing; otherwise only the title and body of post `id` change, and its author, its `created` and every other post stay as they were; only the owner's post can change |
| `Blog.Delete` | flaskr/blog.py:140-155 | the login guard and the `get_post` gate run first, and a missing post (404) or a non-owner (403) leaves the post table unchanged; otherwise exactly post `id` is removed and the response redirects to the index; only the owner's post can vanish |
| `InsertStatement.AsWrittenLeavesLiteralOpen` | flaskr/blog.py:67-73 | the insert text as written contains one quote, so the string literal it opens is never closed |
| `InsertStatement.CorrectedHasNoLiteral` | flaskr/blog.py:67-73 | the insert text without the stray quote opens no literal |
| `Scenario.NextRequest` | flaskr/auth.py:102-116 | a new request keeps the session and loads `g.user` from it |
| `Scenario.LoginThenNextRequest` | flaskr/auth.py:91-96 | after a successful login the next request's `g.user` is the authenticated user, with that username |
| `Scenario.LogoutThenNextRequest` | flaskr/auth.py:118-121 | after logout the next request's `g.user` is None |

## Findings

| source | as written | input that shows it | evidently intended | confidence | as-written member | corrected member |
|---|---|---|---|---|---|---|
| flaskr/blog.py:70 | the INSERT text of `create` has a quote right after the column list `(title, body, author_id)` | any POST to `/create` with a non-empty title: the statement sent has exactly one quote, so its literal is never closed and sqlite cannot parse it | the insert without the quote, which adds the post and redirects to the index | high; not executed | `InsertStatement.AsWrittenLeavesLiteralOpen` | `InsertStatement.CorrectedHasNoLiteral`; `Blog.Create` performs the corrected insert |

## Left out

- flaskr/db.py's connection caching, teardown and the `init-db` command are not modelled; the tables are in-memory maps. flaskr/__init__.py (app configuration, blueprint registration) and tests/conftest.py (fixtures) have no logic to verify.
- Template rendering, `url_for`/`redirect` and flash storage are not modelled beyond tags: a response names its page and carries the messages flashed before it.
- werkzeug's hashing internals are left out: the salt format, PBKDF2 iterations and the constant-time comparison. The key derivation is a stand-in that never collides, and one-wayness is not modelled. The random salt is a parameter.
- A missing form field (werkzeug's 400 Bad Request from `request.form[...]`) is not modelled; the form values are parameters.
- Method routing is not modelled: a GET to the POST-only `/<id>/delete` (405) and non-integer ids in URLs.
- The session is modelled as its `user_id` entry only; `session.clear()` also drops other keys, which this code never sets.
- Blog.GetPost: requires a current user when the author is checked. The source would fail with a server error there, but only `login_required` views call it that way.
- Database errors are not modelled. Create performs the intended insert, not the sqlite error the text as written causes (see Findings).
- The race between two concurrent registrations of one username is left out; the model is sequential.
- The server clock is the parameter `now`. The index sorts on `created` whatever the clock gives, and the order among equal timestamps is the sort's, which SQL leaves unspecified.
