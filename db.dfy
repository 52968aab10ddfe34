/**
 * The two tables of the blog's database (`user` and `post`) as in-memory maps
 * from row id to row. The connection handling of flaskr/db.py is not part of
 * this model; each route reads and writes these maps directly.
 */
module Db {
  import opened Security

  /** A row of `user` without its id: `username UNIQUE`, `password` (the hash). */
  datatype UserRow = UserRow(username: string, password: PasswordHash)

  /** A row of `post` without its id; `created` is the timestamp set at insertion. */
  datatype PostRow = PostRow(title: string, body: string, created: int, authorId: int)

  /** A whole `user` row as `SELECT * FROM user` returns it (what `g.user` holds). */
  datatype User = User(id: int, username: string, password: PasswordHash)

  /** A post joined with its author's username, as the blog's queries select it. */
  datatype Listing = Listing(id: int, title: string, body: string, created: int, authorId: int, username: string)

  /** Every key of `m` lies in [lo, hi). */
  ghost predicate IdsBetween<V>(m: map<int, V>, lo: int, hi: int)
  {
    forall id :: id in m ==> lo <= id < hi
  }

  /** The `UNIQUE` constraint on `user.username`. */
  ghost predicate UniqueUsernames(users: map<int, UserRow>)
  {
    forall a, b :: a in users && b in users && users[a].username == users[b].username ==> a == b
  }

  /** The foreign key `post.author_id REFERENCES user (id)`. */
  ghost predicate AuthorsExist(posts: map<int, PostRow>, users: map<int, UserRow>)
  {
    forall id :: id in posts ==> posts[id].authorId in users
  }

  class Database {
    var users: map<int, UserRow>
    var nextUserId: int
    var posts: map<int, PostRow>
    var nextPostId: int

    /** The schema's constraints, and ids handed out by increasing counters (AUTOINCREMENT). */
    ghost predicate Valid()
      reads this
    {
      && 1 <= nextUserId && 1 <= nextPostId
      && IdsBetween(users, 1, nextUserId)
      && IdsBetween(posts, 1, nextPostId)
      && UniqueUsernames(users)
      && AuthorsExist(posts, users)
    }

    /** A freshly initialised database: both tables empty. */
    constructor ()
      ensures Valid()
      ensures users == map[] && posts == map[]
      ensures nextUserId == 1 && nextPostId == 1
    {
      users, nextUserId := map[], 1;
      posts, nextPostId := map[], 1;
    }
  }
}
