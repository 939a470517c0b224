/** Sequences of requests from one client against the store, and what holds
    across them: the invariant, and that nobody but a post's author can
    change or remove it. */
module Traces {
  import opened Types
  import opened Queries
  import opened Handlers

  /** A request as routed to its handler. `now` is the clock reading at the
      time a post is created. Path ids are what an `<int:…>` route converter
      accepts: non-negative integers. */
  datatype Request =
    | RegisterUser(body: Option<Body>)
    | LoginUser(credentials: Body)
    | LogoutUser
    | CreateBlogPost(body: Option<Body>, now: Timestamp)
    | GetBlogPosts
    | GetUserBlogPosts(userId: nat)
    | DeleteBlogPost(postId: nat)
    | UpdateBlogPost(postId: nat, body: Option<Body>)

  /** One request, handled atomically. */
  function Step(s: State, req: Request, hash: string -> string, check: (string, string) -> bool): (o: Outcome)
    ensures o.response.status >= 300 ==> o.state == s
    ensures Consistent(s) ==> Consistent(o.state)
    ensures Consistent(s) ==> forall id :: id in s.users ==> id in o.state.users && o.state.users[id] == s.users[id]
    ensures Consistent(s) ==> forall id :: id in s.posts && s.session != Some(s.posts[id].authorId) ==>
      id in o.state.posts && o.state.posts[id] == s.posts[id]
  {
    match req
    case RegisterUser(body) => Register(s, body, hash)
    case LoginUser(credentials) => Login(s, credentials, check)
    case LogoutUser => Logout(s)
    case CreateBlogPost(body, now) => CreatePost(s, body, now)
    case GetBlogPosts => ListPosts(s)
    case GetUserBlogPosts(uid) => ListUserPosts(s, uid)
    case DeleteBlogPost(id) => DeletePost(s, id)
    case UpdateBlogPost(id, body) => UpdatePost(s, id, body)
  }

  /** The state after handling `reqs` in order. */
  function Run(s: State, reqs: seq<Request>, hash: string -> string, check: (string, string) -> bool): (t: State)
    ensures Consistent(s) ==> Consistent(t)
    decreases |reqs|
  {
    if reqs == [] then s
    else Run(Step(s, reqs[0], hash, check).state, reqs[1..], hash, check)
  }

  /** No request of `reqs` is issued while `uid` is the session's user. */
  ghost predicate NeverActsAs(s: State, reqs: seq<Request>, hash: string -> string, check: (string, string) -> bool, uid: UserId)
    decreases |reqs|
  {
    reqs == [] ||
    (s.session != Some(uid) && NeverActsAs(Step(s, reqs[0], hash, check).state, reqs[1..], hash, check, uid))
  }

  /** Ownership over any run: a post is neither changed nor removed by requests
      issued without its author logged in. */
  lemma {:induction false} OthersCannotTouchPost(
    s: State, reqs: seq<Request>, hash: string -> string, check: (string, string) -> bool, id: PostId)
    requires Consistent(s) && id in s.posts
    requires NeverActsAs(s, reqs, hash, check, s.posts[id].authorId)
    ensures id in Run(s, reqs, hash, check).posts
    ensures Run(s, reqs, hash, check).posts[id] == s.posts[id]
    decreases |reqs|
  {
    if reqs != [] {
      var next := Step(s, reqs[0], hash, check).state;
      OthersCannotTouchPost(next, reqs[1..], hash, check, id);
    }
  }

  /** Users are never removed or altered: every user of the starting state is
      still there, unchanged, after any run. */
  lemma {:induction false} UsersArePermanent(
    s: State, reqs: seq<Request>, hash: string -> string, check: (string, string) -> bool, id: UserId)
    requires Consistent(s) && id in s.users
    ensures id in Run(s, reqs, hash, check).users
    ensures Run(s, reqs, hash, check).users[id] == s.users[id]
    decreases |reqs|
  {
    if reqs != [] {
      var next := Step(s, reqs[0], hash, check).state;
      UsersArePermanent(next, reqs[1..], hash, check, id);
    }
  }

  /** Every post's author is a registered user in every state reachable from
      the initial one. */
  lemma AuthorsAreRegistered(reqs: seq<Request>, hash: string -> string, check: (string, string) -> bool)
    ensures var t := Run(Initial(), reqs, hash, check);
      forall id :: id in t.posts ==> t.posts[id].authorId in t.users
  {
    assert Consistent(Initial());
  }

  /** Registering under a fresh name and then logging in with the same password
      logs in as the new user, provided the hash check accepts a password
      against its own hash. */
  lemma RegisterThenLogin(s: State, name: string, password: string, hash: string -> string, check: (string, string) -> bool)
    requires Consistent(s)
    requires forall id :: id in s.users ==> s.users[id].username != name
    requires check(hash(password), password)
    ensures var credentials := Body(Some(name), Some(password), None);
      var registered := Register(s, Some(credentials), hash);
      var loggedIn := Login(registered.state, credentials, check);
      && registered.response.status == 201
      && loggedIn.response == Response(200, LoggedIn(LoginSuccessful, s.nextUserId))
      && loggedIn.state.session == Some(s.nextUserId)
  {
    var credentials := Body(Some(name), Some(password), None);
    var t := Register(s, Some(credentials), hash).state;
    var u := FindUser(t, Some(name));
    assert s.nextUserId in t.users && t.users[s.nextUserId].username == name;
    assert u.Some? && u.value == s.nextUserId;
  }

  /** A post just created is listed with its content, its author and its time,
      both in the full listing and in its author's own listing. */
  lemma CreatedPostIsListed(s: State, content: string, now: Timestamp)
    requires Consistent(s) && s.session.Some?
    ensures var created := CreatePost(s, Some(Body(None, None, Some(content))), now);
      var entry := Entry(s.nextPostId, Post(content, s.session.value, now));
      && created.response == Response(201, Created(s.nextPostId))
      && entry in ListPosts(created.state).response.payload.entries
      && ListUserPosts(created.state, s.session.value).response.payload.Entries?
      && entry in ListUserPosts(created.state, s.session.value).response.payload.entries
  {
  }

  /** Logging out twice is the same as logging out once. */
  lemma LogoutIdempotent(s: State)
    ensures Logout(Logout(s).state) == Logout(s)
  {
  }
}
