/** The data of the blog backend: the two tables, the per-client session,
    request bodies and responses. */
module Types {

  datatype Option<T> = None | Some(value: T)

  type UserId = int
  type PostId = int
  /** The clock reading taken when a post is created; its structure is not modelled. */
  type Timestamp = int

  /** A row of the users table; the password is only ever stored hashed. */
  datatype User = User(username: string, passwordHash: string)

  /** A row of the posts table; its id is the key it is stored under. */
  datatype Post = Post(content: string, authorId: UserId, createdAt: Timestamp)

  /** A post as it is serialised into a listing: its id together with its columns. */
  datatype Entry = Entry(id: PostId, post: Post)

  /** A JSON request body. A field is None when its key is absent. */
  datatype Body = Body(username: Option<string>, password: Option<string>, content: Option<string>)

  datatype Payload =
    | Message(text: string)
    | Error(text: string)
    | LoggedIn(text: string, userId: UserId)
    | Created(id: PostId)
    | Entries(entries: seq<Entry>)
    | InternalError

  datatype Response = Response(status: int, payload: Payload)

  /** The store (both tables and their id counters) and the session of the client
      that issues the requests. */
  datatype State = State(
    users: map<UserId, User>,
    posts: map<PostId, Post>,
    nextUserId: UserId,
    nextPostId: PostId,
    session: Option<UserId>)

  /** What a request handler answers, and the state it leaves behind. */
  datatype Outcome = Outcome(response: Response, state: State)

  /** The store as created on first start: both tables empty, no one logged in. */
  function Initial(): State {
    State(map[], map[], 1, 1, None)
  }

  /** The invariant every reachable state keeps: ids are below their table's
      counter, every post's author is a registered user, and a session names a
      registered user. */
  ghost predicate Consistent(s: State) {
    && 1 <= s.nextUserId
    && 1 <= s.nextPostId
    && (forall id :: id in s.users ==> 1 <= id < s.nextUserId)
    && (forall id :: id in s.posts ==> 1 <= id < s.nextPostId && s.posts[id].authorId in s.users)
    && (s.session.Some? ==> s.session.value in s.users)
  }
}
